/** The older engine's playback sink: captured frames are copied onto a
    per-sink FIFO queue, and a 10 ms timer tick moves at most five of them into
    the device's delivery buffer, pads an idle, low buffer with silence and,
    once a second, counts underflows and overflows. The tick is first stated as
    functions on OutputView values (Offer, Monitor, Tick); the class
    AudioDeviceOutput is proved to follow them. */
module BasicSink {
  import opened Common

  /** The latency a sink is given when the caller names none. */
  const DefaultBufferMs: nat := 500
  /** At most this many queued frames are moved per tick. */
  const BatchLimit: nat := 5
  /** The health check acts once this many milliseconds have elapsed on its watch. */
  const MonitorIntervalMs: int := 1000
  /** An underflow adds silence on every ReportEvery-th count. */
  const ReportEvery: int := 5

  /** The delivery buffer's BufferLength: twice avgBps * bufferMs / 1000. */
  function DeliveryLength(a: nat, bufferMs: nat): (r: nat)
    ensures r % 2 == 0 && 1000 * (r / 2) <= a * bufferMs < 1000 * (r / 2) + 1000
  { 2 * (a * bufferMs / 1000) }
  /** The silence buffer: 50 ms of zero bytes. */
  function SilenceLength(a: nat): (r: nat)
    ensures 20 * r <= a < 20 * r + 20
  { a / 20 }
  /** A tick pads when the backlog is below this many bytes (100 ms). */
  function LowWater(a: nat): (r: nat)
    ensures 10 * r <= a < 10 * r + 10
  { a / 10 }

  /** The backlog in seconds as the health check computes it: backlog / avgBps. */
  function BufferedSeconds(backlog: nat, a: nat): real
    requires a > 0
  {
    (backlog as real) / (a as real)
  }

  /** Comparing the backlog in seconds with p / q is comparing backlog * q with p * avgBps. */
  lemma SecondsCompare(backlog: nat, a: nat, p: nat, q: nat)
    requires q > 0
    ensures a > 0 ==> (BufferedSeconds(backlog, a) < (p as real) / (q as real) <==> backlog * q < p * a)
    ensures a > 0 ==> (BufferedSeconds(backlog, a) > (p as real) / (q as real) <==> backlog * q > p * a)
  {
    if a > 0 {
      var x := BufferedSeconds(backlog, a);
      var y := (p as real) / (q as real);
      assert x * (a as real) == backlog as real;
      assert y * (q as real) == p as real;
      assert x * (a as real) * (q as real) == (backlog * q) as real;
      assert y * (q as real) * (a as real) == (p * a) as real;
    }
  }

  /** 0 < bufferedSeconds < 0.05, decided without leaving the integers (see UnderflowingIsBelow50Ms). */
  predicate Underflowing(backlog: nat, a: nat) { backlog * 20 < a && backlog > 0 }
  /** bufferedSeconds > bufferMs * 2 / 1000.0, decided without leaving the integers (see OverflowingIsAboveTwiceLatency). */
  predicate Overflowing(backlog: nat, a: nat, bufferMs: nat) { backlog * 1000 > 2 * bufferMs * a }

  /** The integer test is the health check's test on the backlog in seconds. */
  lemma UnderflowingIsBelow50Ms(backlog: nat, a: nat)
    requires a > 0
    ensures Underflowing(backlog, a) <==> BufferedSeconds(backlog, a) < 0.05 && backlog > 0
  {
    SecondsCompare(backlog, a, 1, 20);
  }

  /** The integer test is the health check's test on the backlog in seconds. */
  lemma OverflowingIsAboveTwiceLatency(backlog: nat, a: nat, bufferMs: nat)
    requires a > 0
    ensures Overflowing(backlog, a, bufferMs) <==> BufferedSeconds(backlog, a) > ((bufferMs * 2) as real) / 1000.0
  {
    SecondsCompare(backlog, a, bufferMs * 2, 1000);
  }

  /** The sink's state: what its queue, tick and health check read or write,
      the volume, and whether the render device is playing and the playback
      timer armed (only Dispose changes those two). */
  datatype OutputView = OutputView(
    bytesPerSecond: nat,
    bufferMs: nat,
    bufferLength: nat,
    buffered: seq<byte>,
    queue: seq<seq<byte>>,
    underflow: int,
    overflow: int,
    watchStart: int,
    volume: real,
    playing: bool,
    ticking: bool)

  predicate Consistent(v: OutputView)
  {
    |v.buffered| <= v.bufferLength
  }

  /** No queued frame is empty (the queue only ever receives frames of at least one byte). */
  predicate AllNonEmpty(q: seq<seq<byte>>)
  {
    forall i :: 0 <= i < |q| ==> |q[i]| > 0
  }

  /** A state the constructor and the operations produce. */
  predicate WellFormed(v: OutputView)
  {
    Consistent(v) && v.bytesPerSecond > 0 &&
    v.bufferLength == DeliveryLength(v.bytesPerSecond, v.bufferMs) &&
    0 <= v.underflow && 0 <= v.overflow && AllNonEmpty(v.queue)
  }

  /** The frames of q laid end to end, oldest first. */
  function Concat(q: seq<seq<byte>>): (s: seq<byte>)
    decreases |q|
  {
    if q == [] then [] else Concat(q[..|q| - 1]) + q[|q| - 1]
  }

  lemma {:induction false} ConcatAppend(p: seq<seq<byte>>, q: seq<seq<byte>>)
    ensures Concat(p + q) == Concat(p) + Concat(q)
    decreases |q|
  {
    if q == [] {
      assert p + q == p;
    } else {
      var q' := q[..|q| - 1];
      assert (p + q)[..|p + q| - 1] == p + q';
      ConcatAppend(p, q');
    }
  }

  /** Cutting the queue at k cuts its byte stream after the first k frames. */
  lemma ConcatSplit(q: seq<seq<byte>>, k: nat)
    requires k <= |q|
    ensures Concat(q) == Concat(q[..k]) + Concat(q[k..])
  {
    assert q == q[..k] + q[k..];
    ConcatAppend(q[..k], q[k..]);
  }

  /** One more frame extends the stream of a queue prefix by that frame. */
  lemma ConcatStep(q: seq<seq<byte>>, i: nat)
    requires i < |q|
    ensures Concat(q[..i + 1]) == Concat(q[..i]) + q[i]
  {
    assert q[..i + 1][..i] == q[..i];
  }

  /** Appending the next frame of the queue after a prefix's stream is
      appending the longer prefix's stream. */
  lemma BatchStep(q: seq<seq<byte>>, b: seq<byte>, i: nat, cap: nat)
    requires i < |q| && |b| <= cap
    ensures AddSamples(AddSamples(b, Concat(q[..i]), cap), q[i], cap) == AddSamples(b, Concat(q[..i + 1]), cap)
    ensures |Concat(q[..i + 1])| == |Concat(q[..i])| + |q[i]|
  {
    ConcatStep(q, i);
    AddSamplesTwice(b, Concat(q[..i]), q[i], cap);
  }

  /** A batch that starts with a non-empty frame carries at least one byte. */
  lemma {:induction false} ConcatNonEmpty(q: seq<seq<byte>>)
    requires q != [] && AllNonEmpty(q)
    ensures |Concat(q)| >= |q[0]| > 0
    decreases |q|
  {
    if |q| > 1 {
      ConcatNonEmpty(q[..|q| - 1]);
    }
  }

  /** The sink as the constructor leaves it: an empty delivery buffer and
      queue, both counters at zero and the watch started at now. */
  function Initial(volume: real, a: nat, bufferMs: nat, now: int): (v: OutputView)
    requires a > 0
    ensures WellFormed(v) && v.buffered == [] && v.queue == []
    ensures v.bufferLength == DeliveryLength(a, bufferMs) && v.watchStart == now && v.volume == volume
    ensures v.playing && v.ticking
  {
    OutputView(a, bufferMs, DeliveryLength(a, bufferMs), [], [], 0, 0, now, volume, true, true)
  }

  /** ProcessAudioData(buffer, n): a private copy of the first n bytes joins the
      tail of the queue; a non-positive count or a failed copy changes nothing. */
  function Offer(v: OutputView, buffer: seq<byte>, n: int): (r: OutputView)
    ensures r.(queue := v.queue) == v
    ensures !(0 < n <= |buffer|) ==> r == v
    ensures 0 < n <= |buffer| ==> r.queue == v.queue + [buffer[..n]] && |r.queue[|v.queue|]| == n
  {
    if n <= 0 || n > |buffer| then v else v.(queue := v.queue + [buffer[..n]])
  }

  /** MonitorBufferHealth at time now. */
  function Monitor(v: OutputView, now: int): (r: OutputView)
    requires Consistent(v)
    ensures Consistent(r) && r.queue == v.queue && r.volume == v.volume
    ensures r.bytesPerSecond == v.bytesPerSecond && r.bufferMs == v.bufferMs && r.bufferLength == v.bufferLength
    ensures now - v.watchStart < MonitorIntervalMs ==> r == v
    ensures now - v.watchStart >= MonitorIntervalMs ==> r.watchStart == now
  {
    if now - v.watchStart >= MonitorIntervalMs then
      var a := v.bytesPerSecond;
      var b := |v.buffered|;
      var w :=
        if Underflowing(b, a) then
          var c := v.underflow + 1;
          v.(underflow := c,
             buffered := if c % ReportEvery == 0 then AddSamples(v.buffered, Zeros(SilenceLength(a)), v.bufferLength)
                         else v.buffered)
        else if Overflowing(b, a, v.bufferMs) then v.(overflow := v.overflow + 1)
        else v;
      w.(watchStart := now)
    else v
  }

  /** The silence pad of a tick that added nothing to a low buffer. */
  function Pad(buffered: seq<byte>, bytesAdded: nat, a: nat, cap: nat): (r: seq<byte>)
    requires |buffered| <= cap
    ensures |r| <= cap
  {
    if |buffered| < LowWater(a) && bytesAdded == 0 then AddSamples(buffered, Zeros(SilenceLength(a)), cap)
    else buffered
  }

  /** One timer tick of ProcessAudioQueue at time now: the health check, then
      the oldest min(|queue|, 5) frames appended in order, then the pad. */
  function Tick(v: OutputView, now: int): (r: OutputView)
    requires Consistent(v)
    ensures Consistent(r) && r.volume == v.volume
    ensures r.bytesPerSecond == v.bytesPerSecond && r.bufferMs == v.bufferMs && r.bufferLength == v.bufferLength
  {
    var m := Monitor(v, now);
    var k := Min(|m.queue|, BatchLimit);
    var batch := Concat(m.queue[..k]);
    var filled := AddSamples(m.buffered, batch, m.bufferLength);
    m.(queue := m.queue[k..], buffered := Pad(filled, |batch|, m.bytesPerSecond, m.bufferLength))
  }

  // ---------------------------------------------------------------------------
  // What the queue, the tick and the health check guarantee

  /** A successful ProcessAudioData extends the queued byte stream by exactly
      the frame's first n bytes, and keeps every queued frame non-empty. */
  lemma OfferExtendsStream(v: OutputView, buffer: seq<byte>, n: int)
    requires 0 < n <= |buffer|
    ensures Concat(Offer(v, buffer, n).queue) == Concat(v.queue) + buffer[..n]
    ensures AllNonEmpty(v.queue) ==> AllNonEmpty(Offer(v, buffer, n).queue)
  {
    var q := v.queue + [buffer[..n]];
    assert q[..|q| - 1] == v.queue;
  }

  /** The health check counts under- or overflow, never both, each by one at
      most; an underflow is a backlog below 50 ms that is not empty, and an
      overflow is counted only without an underflow. */
  lemma CountersExclusive(v: OutputView, now: int)
    requires Consistent(v)
    ensures var r := Monitor(v, now);
            var due := now - v.watchStart >= MonitorIntervalMs;
            var under := Underflowing(|v.buffered|, v.bytesPerSecond);
            (r.underflow == v.underflow + 1 <==> due && under) &&
            (!(due && under) ==> r.underflow == v.underflow) &&
            (r.overflow == v.overflow + 1 <==> due && !under && Overflowing(|v.buffered|, v.bytesPerSecond, v.bufferMs)) &&
            (!(due && !under && Overflowing(|v.buffered|, v.bytesPerSecond, v.bufferMs)) ==> r.overflow == v.overflow) &&
            !(r.underflow != v.underflow && r.overflow != v.overflow)
  {
  }

  /** The health check's overflow branch is never taken: the delivery buffer
      holds at most 2 * bufferMs of audio, which is the overflow threshold
      itself, and the test is strict. */
  lemma NeverOverflowing(v: OutputView)
    requires WellFormed(v)
    ensures !Overflowing(|v.buffered|, v.bytesPerSecond, v.bufferMs)
  {
    var a := v.bytesPerSecond;
    assert (a * v.bufferMs / 1000) * 1000 <= a * v.bufferMs;
  }

  /** So on every sink the constructor and the operations produce, the overflow
      count never moves. */
  lemma OverflowCountStays(v: OutputView, now: int)
    requires WellFormed(v)
    ensures Monitor(v, now).overflow == v.overflow
  {
    NeverOverflowing(v);
  }

  /** The health check adds silence only on an underflow whose new count is a
      multiple of five, and then exactly the 50 ms silence buffer, cut down to
      the free space. */
  lemma SilenceOnFifthUnderflow(v: OutputView, now: int)
    requires Consistent(v)
    ensures var r := Monitor(v, now);
            var due := now - v.watchStart >= MonitorIntervalMs;
            var fifth := due && Underflowing(|v.buffered|, v.bytesPerSecond) && (v.underflow + 1) % ReportEvery == 0;
            (fifth ==> r.buffered == AddSamples(v.buffered, Zeros(SilenceLength(v.bytesPerSecond)), v.bufferLength)) &&
            (!fifth ==> r.buffered == v.buffered)
  {
  }

  /** A tick takes min(|queue|, 5) frames from the head of the queue; later
      frames stay queued, in order. */
  lemma TickTakesBatch(v: OutputView, now: int)
    requires Consistent(v)
    ensures var k := Min(|v.queue|, BatchLimit);
            var r := Tick(v, now);
            r.queue == v.queue[k..] && |v.queue| - |r.queue| <= BatchLimit &&
            (|v.queue| >= BatchLimit ==> |v.queue| - |r.queue| == BatchLimit)
  {
  }

  /** Nothing is lost or reordered between the queue and the delivery buffer:
      the bytes taken by a tick followed by the bytes still queued are the
      bytes queued before it, and the bytes taken are appended after the
      backlog left by the health check. */
  lemma TickConservesStream(v: OutputView, now: int)
    requires Consistent(v)
    ensures var m := Monitor(v, now);
            var k := Min(|v.queue|, BatchLimit);
            var r := Tick(v, now);
            Concat(v.queue) == Concat(v.queue[..k]) + Concat(r.queue) &&
            r.buffered[..|m.buffered|] == m.buffered &&
            (|v.queue| > 0 && AllNonEmpty(v.queue) ==>
               r.buffered == AddSamples(m.buffered, Concat(v.queue[..k]), v.bufferLength))
  {
    var m := Monitor(v, now);
    var k := Min(|v.queue|, BatchLimit);
    var batch := Concat(v.queue[..k]);
    ConcatSplit(v.queue, k);
    var filled := AddSamples(m.buffered, batch, v.bufferLength);
    var r := Tick(v, now);
    assert r.queue == v.queue[k..] && r.buffered == Pad(filled, |batch|, v.bytesPerSecond, v.bufferLength);
    if |v.queue| > 0 && AllNonEmpty(v.queue) {
      ConcatNonEmpty(v.queue[..k]);
      assert r.buffered == filled;
    } else {
      PadKeepsPrefix(filled, |batch|, v.bytesPerSecond, v.bufferLength);
    }
    assert filled[..|m.buffered|] == m.buffered;
  }

  /** Padding only appends. */
  lemma PadKeepsPrefix(buffered: seq<byte>, bytesAdded: nat, a: nat, cap: nat)
    requires |buffered| <= cap
    ensures var r := Pad(buffered, bytesAdded, a, cap);
            |buffered| <= |r| && r[..|buffered|] == buffered
  {
  }

  /** 100 ms of backlog plus 50 ms of silence fit in the delivery buffer of any
      sink asked for at least 100 ms of latency. */
  lemma PadFits(a: nat, bufferMs: nat)
    requires bufferMs >= 100
    ensures LowWater(a) + SilenceLength(a) <= DeliveryLength(a, bufferMs)
  {
    var q := a / 10;
    assert q * 10 <= a;
    assert q * 1000 <= a * 100 <= a * bufferMs;
    var p := a * bufferMs / 1000;
    assert p * 1000 + 1000 > a * bufferMs;
    assert q <= p;
    var s := a / 20;
    assert s * 20 <= a;
    assert s <= q;
  }

  /** With an empty queue and a backlog under 100 ms after the health check, a
      tick appends exactly the 50 ms silence buffer (for a latency of at least
      100 ms); with frames queued it never pads. */
  lemma TickPadsOnlyWhenIdle(v: OutputView, now: int)
    requires WellFormed(v)
    ensures var m := Monitor(v, now);
            var r := Tick(v, now);
            (v.queue == [] && |m.buffered| < LowWater(v.bytesPerSecond) && v.bufferMs >= 100 ==>
               r.buffered == m.buffered + Zeros(SilenceLength(v.bytesPerSecond))) &&
            (v.queue == [] && |m.buffered| >= LowWater(v.bytesPerSecond) ==> r.buffered == m.buffered) &&
            (v.queue != [] ==> r.buffered == AddSamples(m.buffered, Concat(v.queue[..Min(|v.queue|, BatchLimit)]), v.bufferLength))
  {
    var m := Monitor(v, now);
    if v.queue == [] {
      assert m.queue[..0] == [];
      if v.bufferMs >= 100 {
        PadFits(v.bytesPerSecond, v.bufferMs);
      }
    } else {
      TickConservesStream(v, now);
    }
  }

  /** Both operations keep the sink well formed. */
  lemma OperationsWellFormed(v: OutputView, buffer: seq<byte>, n: int, now: int)
    requires WellFormed(v)
    ensures WellFormed(Offer(v, buffer, n))
    ensures WellFormed(Monitor(v, now))
    ensures WellFormed(Tick(v, now))
  {
    if 0 < n <= |buffer| {
      OfferExtendsStream(v, buffer, n);
    }
    var m := Monitor(v, now);
    var k := Min(|m.queue|, BatchLimit);
    assert forall i :: 0 <= i < |m.queue[k..]| ==> m.queue[k..][i] == m.queue[k + i];
  }

  // ---------------------------------------------------------------------------
  // The sink object

  class AudioDeviceOutput {
    const bytesPerSecond: nat
    const bufferMilliseconds: nat
    /** The delivery buffer's BufferLength. */
    const bufferLength: nat
    var volume: real
    /** The delivery buffer's backlog, oldest first (overflowing bytes are discarded). */
    var buffered: seq<byte>
    /** Private copies of captured frames, oldest first. */
    var audioQueue: seq<seq<byte>>
    var underflowCount: int
    var overflowCount: int
    /** The time the health-check stopwatch was last (re)started. */
    var watchStart: int
    /** The render device is playing. */
    var playing: bool
    /** The 10 ms playback timer is armed. */
    var ticking: bool

    ghost var Model: OutputView

    ghost predicate Valid()
      reads this
    {
      |buffered| <= bufferLength && Model == Current()
    }

    ghost function Current(): OutputView
      reads this
    {
      OutputView(bytesPerSecond, bufferMilliseconds, bufferLength, buffered, audioQueue,
                 underflowCount, overflowCount, watchStart, volume, playing, ticking)
    }

    /** Sizing; the render mode and any resampler chosen are not modelled. */
    constructor (initialVolume: real, format: nat, bufferMs: nat, now: int)
      requires format > 0
      ensures Valid() && Model == Initial(initialVolume, format, bufferMs, now)
    {
      volume := initialVolume;
      bufferMilliseconds := bufferMs;
      watchStart := now;
      audioQueue := [];
      bytesPerSecond := format;
      bufferLength := (format * bufferMs / 1000) * 2;
      buffered := [];
      underflowCount, overflowCount := 0, 0;
      ticking := true;
      playing := true;
      Model := OutputView(format, bufferMs, (format * bufferMs / 1000) * 2, [], [], 0, 0, now, initialVolume, true, true);
    }

    /** ok is false when the copy throws because bytesRecorded exceeds the buffer. */
    method ProcessAudioData(buffer: seq<byte>, bytesRecorded: int) returns (ok: bool)
      requires Valid()
      modifies this
      ensures Valid() && Model == Offer(old(Model), buffer, bytesRecorded)
      ensures ok <==> bytesRecorded <= 0 || bytesRecorded <= |buffer|
    {
      ok := true;
      if bytesRecorded <= 0 {
        return;
      }
      if bytesRecorded > |buffer| {
        return false;
      }
      var bufferCopy := buffer[..bytesRecorded];
      audioQueue := audioQueue + [bufferCopy];
      Model := Current();
    }

    /** The timer callback. */
    method ProcessAudioQueue(now: int)
      requires Valid()
      modifies this
      ensures Valid() && Model == Tick(old(Model), now)
    {
      MonitorBufferHealth(now);
      var itemsToProcess := Min(|audioQueue|, BatchLimit);
      var bytesAdded := DequeueBatch(itemsToProcess);
      if |buffered| < bytesPerSecond / 10 && bytesAdded == 0 {
        buffered := AddSamples(buffered, Zeros(SilenceLength(bytesPerSecond)), bufferLength);
      }
      Model := Current();
    }

    /** The batch loop of a tick: the count oldest frames leave the queue and
        are appended to the delivery buffer in order. */
    method DequeueBatch(count: nat) returns (bytesAdded: nat)
      requires Valid() && count <= |audioQueue|
      modifies this
      ensures Valid()
      ensures Model == old(Model).(queue := old(audioQueue)[count..],
                                   buffered := AddSamples(old(buffered), Concat(old(audioQueue)[..count]), bufferLength))
      ensures bytesAdded == |Concat(old(audioQueue)[..count])|
    {
      ghost var q, b := audioQueue, buffered;
      bytesAdded := 0;
      for i := 0 to count
        invariant |buffered| <= bufferLength && audioQueue == q[i..]
        invariant buffered == AddSamples(b, Concat(q[..i]), bufferLength)
        invariant bytesAdded == |Concat(q[..i])|
        invariant Current() == old(Model).(queue := audioQueue, buffered := buffered)
      {
        if audioQueue != [] {
          var buffer := audioQueue[0];
          audioQueue := audioQueue[1..];
          BatchStep(q, b, i, bufferLength);
          buffered := AddSamples(buffered, buffer, bufferLength);
          bytesAdded := bytesAdded + |buffer|;
        }
      }
      Model := Current();
    }

    /** The once-a-second health check. */
    method MonitorBufferHealth(now: int)
      requires Valid()
      modifies this
      ensures Valid() && Model == Monitor(old(Model), now)
    {
      if now - watchStart >= MonitorIntervalMs {
        if Underflowing(|buffered|, bytesPerSecond) {
          underflowCount := underflowCount + 1;
          if underflowCount % ReportEvery == 0 {
            buffered := AddSamples(buffered, Zeros(SilenceLength(bytesPerSecond)), bufferLength);
          }
        } else if Overflowing(|buffered|, bytesPerSecond, bufferMilliseconds) {
          overflowCount := overflowCount + 1;
        }
        watchStart := now;
        Model := Current();
      }
    }

    /** Stores the clamped volume. */
    method SetVolume(v: real)
      requires Valid()
      modifies this
      ensures Valid() && Model == old(Model).(volume := Clamp(v))
    {
      volume := Clamp(v);
      Model := Current();
    }

    /** Stops the timer and the render device, then discards every queued frame. */
    method Dispose()
      requires Valid()
      modifies this
      ensures Valid() && Model == old(Model).(queue := [], playing := false, ticking := false)
    {
      ticking := false;
      playing := false;
      while audioQueue != []
        invariant Current() == old(Model).(queue := audioQueue, playing := false, ticking := false)
        decreases |audioQueue|
      {
        audioQueue := audioQueue[1..];
      }
      Model := Current();
    }
  }
}
