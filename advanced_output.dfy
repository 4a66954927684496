/** The advanced engine's playback sink: a delivery buffer the device renders
    from, a ring buffer kept as a recovery reservoir, and the per-frame
    underrun / overrun policy. The policy is first stated as a function on
    SinkView values (Deliver); the class AdvancedAudioOutput is proved to
    follow it, and the lemmas below state what the policy guarantees. */
module AdvancedSink {
  import opened Common
  import opened Ring

  /** The delivery latency actually used; the constructor's bufferMs argument is ignored. */
  const FixedBufferMs: nat := 120
  /** Backlog below this many milliseconds counts as an underrun observation. */
  const UnderrunMs: nat := 30
  /** Backlog above this many milliseconds is an overrun. */
  const OverrunMs: nat := 250
  /** An overrun reset needs more than this many milliseconds since the last reset. */
  const ResetIntervalMs: int := 5000
  /** The warm-up flag is dropped once more than this many milliseconds have passed. */
  const WarmUpMs: int := 500
  /** The number of consecutive underrun observations that triggers a recovery. */
  const UnderrunLimit: int := 3

  /** Delivery-buffer capacity: twice bufferSize = avgBps * 120 / 1000. */
  function DeliveryCapacity(a: nat): (r: nat)
    ensures r % 2 == 0 && 1000 * (r / 2) <= a * FixedBufferMs < 1000 * (r / 2) + 1000
  { 2 * (a * FixedBufferMs / 1000) }
  /** Ring capacity: 250 ms of audio. */
  function RingCapacity(a: nat): (r: nat)
    ensures 4 * r <= a < 4 * r + 4
  { a / 4 }
  /** Prefill before playback starts: 100 ms of silence. */
  function PrefillLength(a: nat): (r: nat)
    ensures 10 * r <= a < 10 * r + 10
  { a / 10 }
  /** Recovery chunk pulled from the ring on a persistent underrun: 50 ms. */
  function RecoveryLength(a: nat): (r: nat)
    ensures 20 * r <= a < 20 * r + 20
  { a / 20 }
  /** Bytes re-seeded from the ring after an overrun reset: 100 ms. */
  function ReseedLength(a: nat): (r: nat)
    ensures 10 * r <= a < 10 * r + 10
  { a / 10 }

  /** The backlog in milliseconds as the source computes it: backlog / avgBps * 1000. */
  function BacklogMs(backlog: nat, a: nat): real
    requires a > 0
  {
    (backlog as real) / (a as real) * 1000.0
  }

  /** bufferedMs < 30, decided without leaving the integers (see StarvedIsBelow30Ms). */
  predicate Starved(backlog: nat, a: nat) { backlog * 1000 < UnderrunMs * a }
  /** bufferedMs > 250, decided without leaving the integers (see OverfullIsAbove250Ms). */
  predicate Overfull(backlog: nat, a: nat) { backlog * 1000 > OverrunMs * a }

  /** The integer test is the source's test on the backlog in milliseconds. */
  lemma StarvedIsBelow30Ms(backlog: nat, a: nat)
    requires a > 0
    ensures Starved(backlog, a) <==> BacklogMs(backlog, a) < UnderrunMs as real
  {
    MsCompare(backlog, a, UnderrunMs);
  }

  /** The integer test is the source's test on the backlog in milliseconds. */
  lemma OverfullIsAbove250Ms(backlog: nat, a: nat)
    requires a > 0
    ensures Overfull(backlog, a) <==> BacklogMs(backlog, a) > OverrunMs as real
  {
    MsCompare(backlog, a, OverrunMs);
  }

  /** Comparing the backlog in milliseconds with t is comparing backlog * 1000 with t * avgBps. */
  lemma MsCompare(backlog: nat, a: nat, t: nat)
    ensures a > 0 ==> (BacklogMs(backlog, a) < t as real <==> backlog * 1000 < t * a)
    ensures a > 0 ==> (BacklogMs(backlog, a) > t as real <==> backlog * 1000 > t * a)
  {
    if a > 0 {
      var x := (backlog as real) / (a as real);
      assert x * (a as real) == backlog as real;
      assert BacklogMs(backlog, a) * (a as real) == (backlog * 1000) as real;
    }
  }

  /** The sink's state: the format's byte rate, both capacities, the ring's
      stored bytes (oldest first), the delivery buffer's backlog, the underrun
      streak, the time of the last reset, the warm-up flag, the volume, and
      whether the render device is playing (only Dispose changes that). */
  datatype SinkView = SinkView(
    bytesPerSecond: nat,
    ringCapacity: nat,
    bufferLength: nat,
    stored: seq<byte>,
    buffered: seq<byte>,
    underrun: int,
    lastClear: int,
    isStarting: bool,
    volume: real,
    playing: bool)

  /** Both buffers within their capacities. */
  predicate Consistent(v: SinkView)
  {
    |v.stored| <= v.ringCapacity && |v.buffered| <= v.bufferLength
  }

  /** A state the constructor and ProcessAudio can produce: consistent, sized
      from the byte rate as the constructor sizes it, and an underrun streak
      below the recovery limit. */
  predicate WellFormed(v: SinkView)
  {
    Consistent(v) && v.bytesPerSecond > 0 &&
    v.ringCapacity == RingCapacity(v.bytesPerSecond) &&
    v.bufferLength == DeliveryCapacity(v.bytesPerSecond) &&
    0 <= v.underrun < UnderrunLimit
  }

  /** The quantities ProcessAudio never changes are unchanged: the byte rate,
      both capacities, the volume and the render device's state. */
  predicate SameShape(v: SinkView, r: SinkView)
  {
    r.bytesPerSecond == v.bytesPerSecond && r.ringCapacity == v.ringCapacity &&
    r.bufferLength == v.bufferLength && r.volume == v.volume && r.playing == v.playing
  }

  /** The sink as the constructor leaves it. */
  function Initial(volume: real, a: nat, now: int): (v: SinkView)
    requires a > 0
    ensures WellFormed(v)
    ensures v.buffered == Zeros(PrefillLength(a)) && v.stored == []
    ensures v.volume == volume && v.lastClear == now && v.isStarting && v.underrun == 0 && v.playing
  {
    PrefillFits(a);
    SinkView(a, RingCapacity(a), DeliveryCapacity(a), [],
             AddSamples([], Zeros(PrefillLength(a)), DeliveryCapacity(a)), 0, now, true, volume, true)
  }

  /** 100 ms of prefill always fits in twice 120 ms of capacity. */
  lemma PrefillFits(a: nat)
    ensures PrefillLength(a) <= DeliveryCapacity(a)
  {
    var q := a * FixedBufferMs / 1000;
    assert q * 1000 + 1000 > a * 120;
    assert (a / 10) * 10 <= a;
  }

  /** t is what is left of s after some of its oldest bytes were taken. */
  predicate IsSuffix(t: seq<byte>, s: seq<byte>)
  {
    |t| <= |s| && t == s[|s| - |t|..]
  }

  lemma SuffixTrans(u: seq<byte>, t: seq<byte>, s: seq<byte>)
    requires IsSuffix(u, t) && IsSuffix(t, s)
    ensures IsSuffix(u, s)
  {
    assert s[|s| - |t|..][|t| - |u|..] == s[|s| - |u|..];
  }

  /** The ring after the frame's first n bytes have been offered to it. */
  function RingAfterWrite(v: SinkView, data: seq<byte>): (s: seq<byte>)
    requires |v.stored| <= v.ringCapacity
    ensures |s| == Min(|v.stored| + |data|, v.ringCapacity)
    ensures s[..|v.stored|] == v.stored && s[|v.stored|..] == data[..|s| - |v.stored|]
  {
    v.stored + data[..Min(|data|, v.ringCapacity - |v.stored|)]
  }

  /** One ProcessAudio call on frame[..n] at time now (the policy). */
  function Deliver(v: SinkView, frame: seq<byte>, n: nat, now: int): (r: SinkView)
    requires Consistent(v) && n <= |frame|
    ensures Consistent(r) && SameShape(v, r)
  {
    var data := frame[..n];
    var w := Arrive(v, data, now);
    var (x, aborted) := Recover(w);
    if aborted then x else Settle(x, |v.buffered|, data, now)
  }

  /** Steps 1-2: the frame offered to the ring, and the warm-up flag. */
  function Arrive(v: SinkView, data: seq<byte>, now: int): (w: SinkView)
    requires Consistent(v)
    ensures Consistent(w) && SameShape(v, w)
  {
    v.(stored := RingAfterWrite(v, data),
       isStarting := v.isStarting && !(now - v.lastClear > WarmUpMs))
  }

  /** Step 3, the underrun policy, on the backlog of w. The flag is true when
      the recovery bytes did not fit: the library signals a full buffer by
      throwing, so the streak reset and the rest of the call are skipped. */
  function Recover(w: SinkView): (res: (SinkView, bool))
    requires Consistent(w)
    ensures Consistent(res.0) && SameShape(w, res.0)
  {
    var starved := Starved(|w.buffered|, w.bytesPerSecond);
    if starved && w.underrun + 1 >= UnderrunLimit then Inject(w.(underrun := w.underrun + 1))
    else (w.(underrun := if starved then w.underrun + 1 else 0), false)
  }

  /** The recovery itself, after the streak has been counted: the oldest bytes
      of the ring, at most 50 ms, go to the delivery buffer; the streak is reset
      unless they did not fit. */
  function Inject(x: SinkView): (res: (SinkView, bool))
    requires Consistent(x)
    ensures Consistent(res.0) && SameShape(x, res.0)
  {
    var k := Min(RecoveryLength(x.bytesPerSecond), |x.stored|);
    var recovery := x.stored[..k];
    var y := x.(stored := x.stored[k..], buffered := AddSamples(x.buffered, recovery, x.bufferLength));
    if Overflows(x.buffered, recovery, x.bufferLength) then (y, true)
    else (y.(underrun := 0), false)
  }

  /** The overrun reset or the plain append of the frame's bytes, decided on the
      backlog measured before any recovery. */
  function Settle(v: SinkView, backlog: nat, data: seq<byte>, now: int): (r: SinkView)
    requires Consistent(v)
    ensures Consistent(r) && SameShape(v, r)
  {
    if Overfull(backlog, v.bytesPerSecond) && now - v.lastClear > ResetIntervalMs then Reseed(v, data, now)
    else v.(buffered := AddSamples(v.buffered, data, v.bufferLength))
  }

  /** The overrun reset: the backlog is dropped and replaced by at most 100 ms
      taken from the ring (its oldest bytes) followed by the frame. */
  function Reseed(v: SinkView, data: seq<byte>, now: int): (r: SinkView)
    requires Consistent(v)
    ensures Consistent(r) && SameShape(v, r)
  {
    var k := Min(ReseedLength(v.bytesPerSecond), |v.stored|);
    v.(buffered := AddSamples([], v.stored[..k] + data, v.bufferLength),
       stored := v.stored[k..], lastClear := now)
  }

  /** Every frame of the list delivered in order. */
  predicate FramesValid(frames: seq<Frame>)
  {
    forall i :: 0 <= i < |frames| ==> 0 <= frames[i].bytesRecorded <= |frames[i].buffer|
  }

  function DeliverAll(v: SinkView, frames: seq<Frame>, now: int): (r: SinkView)
    requires Consistent(v) && FramesValid(frames)
    ensures Consistent(r) && SameShape(v, r)
    decreases |frames|
  {
    if frames == [] then v
    else DeliverAll(Deliver(v, frames[0].buffer, frames[0].bytesRecorded, now), frames[1..], now)
  }

  // ---------------------------------------------------------------------------
  // What the policy guarantees

  /** A starved backlog plus a full recovery chunk fits in the delivery buffer. */
  lemma RecoveryFits(a: nat, backlog: nat)
    requires a > 0 && Starved(backlog, a)
    ensures backlog + RecoveryLength(a) <= DeliveryCapacity(a)
  {
    var q := a * FixedBufferMs / 1000;
    assert q * 1000 + 1000 > a * 120;
    var r := a / 20;
    assert r * 20 <= a;
    if a < 20 {
      assert r == 0;
    } else {
      assert (backlog + r) * 1000 < 80 * a;
    }
  }

  /** ProcessAudio keeps the sink well formed; in particular the underrun
      streak is back in 0..2 after every call. */
  lemma DeliverWellFormed(v: SinkView, frame: seq<byte>, n: nat, now: int)
    requires WellFormed(v) && n <= |frame|
    ensures WellFormed(Deliver(v, frame, n, now))
  {
    var a := v.bytesPerSecond;
    var w := Arrive(v, frame[..n], now);
    if Starved(|v.buffered|, a) {
      RecoveryFits(a, |v.buffered|);
    }
    assert 0 <= Recover(w).0.underrun < UnderrunLimit;
    NeverOverfull(v);
    SettleAppends(Recover(w).0, |v.buffered|, frame[..n], now);
  }

  lemma {:induction false} DeliverAllWellFormed(v: SinkView, frames: seq<Frame>, now: int)
    requires WellFormed(v) && FramesValid(frames)
    ensures WellFormed(DeliverAll(v, frames, now))
    decreases |frames|
  {
    if frames != [] {
      DeliverWellFormed(v, frames[0].buffer, frames[0].bytesRecorded, now);
      DeliverAllWellFormed(Deliver(v, frames[0].buffer, frames[0].bytesRecorded, now), frames[1..], now);
    }
  }

  /** The frame always goes into the ring first, cut down to the ring's free
      space; whatever the rest of the call takes from the ring leaves from its
      front, so the ring ends as a suffix of the stored bytes plus the frame. */
  lemma RingTakesFrame(v: SinkView, frame: seq<byte>, n: nat, now: int)
    requires Consistent(v) && n <= |frame|
    ensures var s := RingAfterWrite(v, frame[..n]);
            var r := Deliver(v, frame, n, now);
            IsSuffix(r.stored, s)
  {
    var data := frame[..n];
    var w := Arrive(v, data, now);
    var (x, aborted) := Recover(w);
    RecoverTakesFront(w);
    if !aborted {
      SettleTakesFront(x, |v.buffered|, data, now);
      SuffixTrans(Settle(x, |v.buffered|, data, now).stored, x.stored, w.stored);
    }
  }

  /** The underrun policy only takes bytes from the front of the ring. */
  lemma RecoverTakesFront(w: SinkView)
    requires Consistent(w)
    ensures IsSuffix(Recover(w).0.stored, w.stored)
  {
  }

  /** The overrun policy only takes bytes from the front of the ring. */
  lemma SettleTakesFront(x: SinkView, backlog: nat, data: seq<byte>, now: int)
    requires Consistent(x)
    ensures IsSuffix(Settle(x, backlog, data, now).stored, x.stored)
  {
  }

  /** A starved observation below the limit only lengthens the streak; the frame
      is appended once after the backlog and nothing else happens. */
  lemma StreakGrows(v: SinkView, frame: seq<byte>, n: nat, now: int)
    requires Consistent(v) && n <= |frame|
    requires Starved(|v.buffered|, v.bytesPerSecond) && v.underrun + 1 < UnderrunLimit
    ensures var r := Deliver(v, frame, n, now);
            r.underrun == v.underrun + 1 &&
            r.buffered == AddSamples(v.buffered, frame[..n], v.bufferLength) &&
            r.stored == RingAfterWrite(v, frame[..n]) && r.lastClear == v.lastClear
  {
  }

  /** The third consecutive starved observation injects the oldest bytes of the
      ring (at most 50 ms) ahead of the frame and resets the streak. */
  lemma StreakRecovers(v: SinkView, frame: seq<byte>, n: nat, now: int)
    requires WellFormed(v) && n <= |frame|
    requires Starved(|v.buffered|, v.bytesPerSecond) && v.underrun == UnderrunLimit - 1
    ensures var s := RingAfterWrite(v, frame[..n]);
            var k := Min(RecoveryLength(v.bytesPerSecond), |s|);
            var r := Deliver(v, frame, n, now);
            r.underrun == 0 && r.stored == s[k..] && r.lastClear == v.lastClear &&
            r.buffered == AddSamples(v.buffered + s[..k], frame[..n], v.bufferLength) &&
            |r.buffered| >= |v.buffered| + k
  {
    var a := v.bytesPerSecond;
    var s := RingAfterWrite(v, frame[..n]);
    var k := Min(RecoveryLength(a), |s|);
    RecoveryFits(a, |v.buffered|);
    AddSamplesTwice(v.buffered, s[..k], frame[..n], v.bufferLength);
  }

  /** A backlog of at least 30 ms clears the streak. */
  lemma HealthyClearsStreak(v: SinkView, frame: seq<byte>, n: nat, now: int)
    requires Consistent(v) && n <= |frame|
    requires !Starved(|v.buffered|, v.bytesPerSecond)
    ensures Deliver(v, frame, n, now).underrun == 0
  {
  }

  /** An overrun more than 5 s after the last reset drops the backlog, re-seeds
      it with at most 100 ms read from the ring (its oldest bytes), appends the
      frame and records the time of the reset. */
  lemma OverrunResets(v: SinkView, frame: seq<byte>, n: nat, now: int)
    requires Consistent(v) && n <= |frame|
    requires Overfull(|v.buffered|, v.bytesPerSecond) && now - v.lastClear > ResetIntervalMs
    ensures var s := RingAfterWrite(v, frame[..n]);
            var k := Min(ReseedLength(v.bytesPerSecond), |s|);
            var r := Deliver(v, frame, n, now);
            r.lastClear == now && r.underrun == 0 && r.stored == s[k..] &&
            r.buffered == AddSamples([], s[..k] + frame[..n], v.bufferLength)
  {
  }

  /** No sink the constructor sizes is ever overfull: its delivery buffer holds
      at most 2 * 120 ms = 240 ms, below the 250 ms overrun threshold. So the
      overrun reset of OverrunResets is never taken by a constructed sink. */
  lemma NeverOverfull(v: SinkView)
    requires WellFormed(v)
    ensures !Overfull(|v.buffered|, v.bytesPerSecond)
  {
    var a := v.bytesPerSecond;
    assert (a * FixedBufferMs / 1000) * 1000 <= a * FixedBufferMs;
  }

  /** On a well-formed sink the clock is kept and the frame is appended exactly
      once, after the backlog and any recovery bytes. */
  lemma NoResetAppends(v: SinkView, frame: seq<byte>, n: nat, now: int)
    requires WellFormed(v) && n <= |frame|
    ensures var s := RingAfterWrite(v, frame[..n]);
            var recovering := Starved(|v.buffered|, v.bytesPerSecond) && v.underrun + 1 >= UnderrunLimit;
            var k := if recovering then Min(RecoveryLength(v.bytesPerSecond), |s|) else 0;
            var r := Deliver(v, frame, n, now);
            r.lastClear == v.lastClear && r.stored == s[k..] &&
            r.buffered == AddSamples(v.buffered + s[..k], frame[..n], v.bufferLength)
  {
    var a := v.bytesPerSecond;
    var s := RingAfterWrite(v, frame[..n]);
    NeverOverfull(v);
    if Starved(|v.buffered|, a) && v.underrun + 1 >= UnderrunLimit {
      StreakRecovers(v, frame, n, now);
    } else {
      assert v.buffered + s[..0] == v.buffered;
    }
  }

  /** The sink with its warm-up flag cleared. Nothing ProcessAudio does reads
      the flag, so this is all of the sink that decides what is played. */
  function Audible(v: SinkView): SinkView
  {
    v.(isStarting := false)
  }

  /** On a well-formed sink the clock only decides the warm-up flag: two sinks
      that agree apart from the flag, fed the same frame at any two times,
      again agree apart from the flag, and the flag drops once more than 500 ms
      have passed since the last reset. */
  lemma DeliverIgnoresClock(v1: SinkView, v2: SinkView, frame: seq<byte>, n: nat, t1: int, t2: int)
    requires WellFormed(v1) && Audible(v1) == Audible(v2) && n <= |frame|
    ensures Audible(Deliver(v1, frame, n, t1)) == Audible(Deliver(v2, frame, n, t2))
    ensures Deliver(v1, frame, n, t1).isStarting == (v1.isStarting && t1 - v1.lastClear <= WarmUpMs)
  {
    var data := frame[..n];
    var w1, w2 := Arrive(v1, data, t1), Arrive(v2, data, t2);
    assert w2 == w1.(isStarting := w2.isStarting);
    RecoverIgnoresFlag(w1, w2.isStarting);
    NeverOverfull(v1);
    SettleAppends(Recover(w1).0, |v1.buffered|, data, t1);
    SettleAppends(Recover(w2).0, |v1.buffered|, data, t2);
  }

  /** The underrun policy neither reads nor writes the warm-up flag. */
  lemma RecoverIgnoresFlag(w: SinkView, b: bool)
    requires Consistent(w)
    ensures Recover(w.(isStarting := b)) == (Recover(w).0.(isStarting := b), Recover(w).1)
  {
  }

  /** Below the overrun threshold the frame is simply appended, whatever the time. */
  lemma SettleAppends(x: SinkView, backlog: nat, data: seq<byte>, now: int)
    requires Consistent(x) && !Overfull(backlog, x.bytesPerSecond)
    ensures Settle(x, backlog, data, now) == x.(buffered := AddSamples(x.buffered, data, x.bufferLength))
  {
  }

  /** Frames delivered one by one, each at its own time. */
  function DeliverTimed(v: SinkView, frames: seq<Frame>, times: seq<int>): (r: SinkView)
    requires Consistent(v) && FramesValid(frames) && |times| == |frames|
    ensures Consistent(r) && SameShape(v, r)
    decreases |frames|
  {
    if frames == [] then v
    else DeliverTimed(Deliver(v, frames[0].buffer, frames[0].bytesRecorded, times[0]), frames[1..], times[1..])
  }

  /** Delivering the same frames at other times changes nothing but the warm-up flag. */
  lemma {:induction false} TimingIsInaudible(v1: SinkView, v2: SinkView, frames: seq<Frame>, times: seq<int>, now: int)
    requires WellFormed(v1) && Audible(v1) == Audible(v2) && FramesValid(frames) && |times| == |frames|
    ensures Audible(DeliverTimed(v1, frames, times)) == Audible(DeliverAll(v2, frames, now))
    decreases |frames|
  {
    if frames != [] {
      var f := frames[0];
      DeliverIgnoresClock(v1, v2, f.buffer, f.bytesRecorded, times[0], now);
      DeliverWellFormed(v1, f.buffer, f.bytesRecorded, times[0]);
      TimingIsInaudible(Deliver(v1, f.buffer, f.bytesRecorded, times[0]),
                        Deliver(v2, f.buffer, f.bytesRecorded, now), frames[1..], times[1..], now);
    }
  }

  /** Only the first n bytes of the frame matter, so a private copy of them
      delivers exactly what the original buffer would. */
  lemma DeliverSeesPrefix(v: SinkView, frame: seq<byte>, n: nat, now: int)
    requires Consistent(v) && n <= |frame|
    ensures Deliver(v, frame[..n], n, now) == Deliver(v, frame, n, now)
  {
    assert frame[..n][..n] == frame[..n];
  }

  // ---------------------------------------------------------------------------
  // The sink object

  class AdvancedAudioOutput {
    const bytesPerSecond: nat
    /** avgBps * 120 / 1000 bytes. */
    const bufferSize: nat
    /** The delivery buffer's BufferLength, twice bufferSize. */
    const bufferLength: nat
    const ring: CircularBuffer
    var volume: real
    var lastBufferClearTime: int
    /** Set at construction and cleared after 500 ms; nothing reads it. */
    var isStarting: bool
    var underrunCounter: int
    /** The delivery buffer's backlog, oldest first. */
    var buffered: seq<byte>
    /** The render device is playing. */
    var playing: bool

    /** The fields ProcessAudio works on, with the ring's stored bytes, as one value. */
    ghost var Model: SinkView
    ghost const Repr: set<object>

    ghost predicate Valid()
      reads this, Repr
    {
      Repr == {this, ring} + ring.Repr && this !in ring.Repr && ring.Valid() &&
      |buffered| <= bufferLength && Model == Current()
    }

    ghost function Current(): SinkView
      reads this, ring
    {
      SinkView(bytesPerSecond, ring.buffer.Length, bufferLength, ring.Contents, buffered,
               underrunCounter, lastBufferClearTime, isStarting, volume, playing)
    }

    /** Sizing and prefill; the render mode chosen (event driven, or the timer
        fallback) is not modelled, and bufferMs has no effect. */
    constructor (initialVolume: real, format: nat, bufferMs: int, now: int)
      requires format > 0
      ensures Valid() && fresh(Repr)
      ensures Model == Initial(initialVolume, format, now)
      ensures bufferSize == format * FixedBufferMs / 1000
    {
      bytesPerSecond := format;
      volume := initialVolume;
      lastBufferClearTime := now;
      var r := new CircularBuffer(RingCapacity(format));
      ring := r;
      bufferSize := format * FixedBufferMs / 1000;
      bufferLength := DeliveryCapacity(format);
      isStarting := true;
      underrunCounter := 0;
      PrefillFits(format);
      buffered := AddSamples([], Zeros(PrefillLength(format)), DeliveryCapacity(format));
      playing := true;
      Repr := {this, r} + r.Repr;
      Model := Initial(initialVolume, format, now);
    }

    /** Delivery of one captured frame: buffer[..bytesRecorded] at time now. */
    method ProcessAudio(buffer: seq<byte>, bytesRecorded: int, now: int)
      requires Valid() && 0 <= bytesRecorded <= |buffer|
      modifies Repr
      ensures Valid()
      ensures Model == Deliver(old(Model), buffer, bytesRecorded, now)
      ensures WellFormed(old(Model)) ==> WellFormed(Model)
    {
      ghost var v := Model;
      if WellFormed(v) {
        DeliverWellFormed(v, buffer, bytesRecorded, now);
      }

      Accept(buffer, bytesRecorded, now);
      var backlog := |buffered|;
      var aborted := RecoverFromUnderrun();
      if aborted {
        return;
      }
      ManageBacklog(backlog, buffer, bytesRecorded, now);
    }

    /** The frame offered to the ring, and the end of the warm-up. */
    method Accept(buffer: seq<byte>, bytesRecorded: int, now: int)
      requires Valid() && 0 <= bytesRecorded <= |buffer|
      modifies Repr
      ensures Valid()
      ensures Model == Arrive(old(Model), buffer[..bytesRecorded], now)
    {
      var _ := ring.Write(buffer, 0, bytesRecorded);
      if isStarting && now - lastBufferClearTime > WarmUpMs {
        isStarting := false;
      }
      Model := Current();
    }

    /** The underrun policy of ProcessAudio; aborted reports the library's
        "buffer full" exception, which ends the call. */
    method RecoverFromUnderrun() returns (aborted: bool)
      requires Valid()
      modifies Repr
      ensures Valid()
      ensures (Model, aborted) == Recover(old(Model))
    {
      if Starved(|buffered|, bytesPerSecond) {
        underrunCounter := underrunCounter + 1;
        if underrunCounter >= UnderrunLimit {
          Model := Current();
          aborted := InjectRecovery();
          return;
        }
      } else {
        underrunCounter := 0;
      }
      aborted := false;
      Model := Current();
    }

    /** Moves up to 50 ms from the ring to the delivery buffer and resets the streak. */
    method InjectRecovery() returns (aborted: bool)
      requires Valid()
      modifies Repr
      ensures Valid()
      ensures (Model, aborted) == Inject(old(Model))
    {
      var recovery := TakeOldest(RecoveryLength(bytesPerSecond));
      aborted := false;
      if |recovery| > 0 {
        aborted := AddToBuffer(recovery);
        if aborted {
          return;
        }
      } else {
        assert AddSamples(buffered, recovery, bufferLength) == buffered;
      }
      underrunCounter := 0;
      Model := Current();
    }

    /** Reads the count oldest bytes of the ring (fewer when it holds fewer)
        into a new array of count bytes; chunk is the part the read filled. */
    method TakeOldest(count: nat) returns (chunk: seq<byte>)
      requires Valid()
      modifies Repr
      ensures Valid()
      ensures chunk == old(Model).stored[..Min(count, |old(Model).stored|)]
      ensures Model == old(Model).(stored := old(Model).stored[|chunk|..])
    {
      var data := new byte[count];
      var bytesRead := ring.Read(data, 0, count);
      chunk := data[..bytesRead];
      Model := Current();
    }

    /** The overrun policy of ProcessAudio on the backlog measured before any
        recovery, ending with the frame's bytes in the delivery buffer. */
    method ManageBacklog(backlog: nat, buffer: seq<byte>, bytesRecorded: int, now: int)
      requires Valid() && 0 <= bytesRecorded <= |buffer|
      modifies Repr
      ensures Valid()
      ensures Model == Settle(old(Model), backlog, buffer[..bytesRecorded], now)
    {
      if Overfull(backlog, bytesPerSecond) && now - lastBufferClearTime > ResetIntervalMs {
        ResetBacklog(buffer, bytesRecorded, now);
      } else {
        var _ := AddToBuffer(buffer[..bytesRecorded]);
      }
    }

    /** The overrun reset: clear, re-seed from the ring, then add the frame. */
    method ResetBacklog(buffer: seq<byte>, bytesRecorded: int, now: int)
      requires Valid() && 0 <= bytesRecorded <= |buffer|
      modifies Repr
      ensures Valid()
      ensures Model == Reseed(old(Model), buffer[..bytesRecorded], now)
    {
      ghost var data := buffer[..bytesRecorded];
      ClearBacklog(now);
      var recent := TakeOldest(ReseedLength(bytesPerSecond));
      if |recent| > 0 {
        AddSamplesTwice([], recent, data, bufferLength);
        var full := AddToBuffer(recent);
        if full {
          AddSamplesWhenFull([], recent, data, bufferLength);
          return;
        }
      } else {
        assert recent + data == data;
      }
      var _ := AddToBuffer(buffer[..bytesRecorded]);
    }

    /** ClearBuffer on the delivery buffer, stamping the reset clock. */
    method ClearBacklog(now: int)
      requires Valid()
      modifies this
      ensures Valid()
      ensures Model == old(Model).(buffered := [], lastClear := now)
    {
      buffered := [];
      lastBufferClearTime := now;
      Model := Current();
    }

    /** AddSamples on the delivery buffer; full reports that not every byte was
        stored, which the library signals by throwing. */
    method AddToBuffer(data: seq<byte>) returns (full: bool)
      requires Valid()
      modifies this
      ensures Valid()
      ensures full == Overflows(old(buffered), data, bufferLength)
      ensures Model == old(Model).(buffered := AddSamples(old(buffered), data, bufferLength))
    {
      full := Overflows(buffered, data, bufferLength);
      buffered := AddSamples(buffered, data, bufferLength);
      Model := Current();
    }

    /** Stores the clamped volume. */
    method SetVolume(v: real)
      requires Valid()
      modifies this
      ensures Valid()
      ensures Model == old(Model).(volume := Clamp(v))
    {
      volume := Clamp(v);
      Model := Current();
    }

    /** Stops the render device. */
    method Dispose()
      requires Valid()
      modifies this
      ensures Valid() && Model == old(Model).(playing := false)
    {
      playing := false;
      Model := Current();
    }
  }
}
