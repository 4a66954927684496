/** The advanced routing engine: a registry of advanced sinks keyed by device
    id, the loopback capture's lifecycle, and the fan-out of captured frames,
    direct for one or two sinks and through a FIFO queue for three or more.
    The queue's worker loop is modelled as one explicit drain step. */
module AdvancedRouting {
  import opened Common
  import opened Devices
  import opened AdvancedSink

  /** Fan-out is direct (inside the capture callback) for at most this many sinks. */
  const DirectSinkLimit: nat := 2

  /** The latency, in milliseconds, the engine asks of every new sink; the sink ignores it. */
  const RequestedBufferMs: int := 500

  /** The private copy the queued strategy makes of each frame. */
  function Copy(f: Frame): (c: Frame)
    requires 0 <= f.bytesRecorded <= |f.buffer|
    ensures c.bytesRecorded == f.bytesRecorded == |c.buffer|
    ensures c.buffer == f.buffer[..f.bytesRecorded]
  {
    Frame(f.buffer[..f.bytesRecorded], f.bytesRecorded)
  }

  function Copies(frames: seq<Frame>): (cs: seq<Frame>)
    requires FramesValid(frames)
    ensures |cs| == |frames| && FramesValid(cs)
    ensures forall i :: 0 <= i < |frames| ==> cs[i] == Copy(frames[i])
  {
    seq(|frames|, i requires 0 <= i < |frames| => Copy(frames[i]))
  }

  /** Queuing private copies and draining them delivers to each sink exactly
      what delivering the original frames directly, in the same order, would. */
  lemma {:induction false} QueuedMatchesDirect(v: SinkView, frames: seq<Frame>, now: int)
    requires Consistent(v) && FramesValid(frames)
    ensures DeliverAll(v, Copies(frames), now) == DeliverAll(v, frames, now)
    decreases |frames|
  {
    if frames != [] {
      var f := frames[0];
      assert Copies(frames)[1..] == Copies(frames[1..]);
      DeliverSeesPrefix(v, f.buffer, f.bytesRecorded, now);
      QueuedMatchesDirect(Deliver(v, f.buffer, f.bytesRecorded, now), frames[1..], now);
    }
  }

  /** The worker drains the queue later than the frames were captured; on a
      well-formed sink that changes nothing but the warm-up flag, so what is
      played is what direct delivery at the capture times would play. */
  lemma QueuedMatchesDirectLater(v: SinkView, frames: seq<Frame>, captured: seq<int>, now: int)
    requires WellFormed(v) && FramesValid(frames) && |captured| == |frames|
    ensures Audible(DeliverAll(v, Copies(frames), now)) == Audible(DeliverTimed(v, frames, captured))
  {
    QueuedMatchesDirect(v, frames, now);
    TimingIsInaudible(v, v, frames, captured, now);
  }

  /** Every sink of the registry is valid within the footprint and in a state
      its constructor and ProcessAudio can produce, and no two sinks share an
      object. */
  ghost predicate Registry(outs: map<string, AdvancedAudioOutput>, footprint: set<object>)
    reads footprint
  {
    (forall id :: id in outs ==>
       outs[id] in footprint && outs[id].Repr <= footprint && outs[id].Valid() && WellFormed(outs[id].Model)) &&
    (forall id1, id2 :: id1 in outs && id2 in outs && id1 != id2 ==> outs[id1].Repr !! outs[id2].Repr)
  }

  /** Dropping a sink keeps the rest of the registry valid. */
  lemma RegistryWithout(outs: map<string, AdvancedAudioOutput>, footprint: set<object>, k: string)
    requires Registry(outs, footprint)
    ensures Registry(outs - {k}, footprint)
  {
  }

  /** A valid sink on objects of its own joins the registry. */
  lemma RegistryWith(outs: map<string, AdvancedAudioOutput>, footprint: set<object>, k: string, s: AdvancedAudioOutput)
    requires Registry(outs, footprint) && k !in outs && s.Valid() && WellFormed(s.Model) && s.Repr !! footprint
    ensures Registry(outs[k := s], footprint + s.Repr)
  {
  }

  class AdvancedAudioEngine {
    var outputs: map<string, AdvancedAudioOutput>
    /** The loopback capture the engine holds is recording. */
    var capturing: bool
    /** Loopback captures recording, the one held and any the engine has lost
        track of; each of them calls OnAudioDataAvailable with every frame. */
    var captures: nat
    /** The capture format's bytes per second, handed to every new sink. */
    var captureBytesPerSecond: nat
    /** Private copies of frames awaiting the worker, oldest first. */
    var queue: seq<Frame>
    var isRunning: bool
    var cancelled: bool
    /** The cancellation source has been disposed. */
    var disposed: bool
    ghost var Repr: set<object>
    /** The objects of the registered sinks. */
    ghost var SinkRepr: set<object>

    ghost predicate Valid()
      reads this, Repr
    {
      Repr == {this} + SinkRepr && this !in SinkRepr && Registry(outputs, SinkRepr) &&
      captureBytesPerSecond > 0 && (capturing ==> captures > 0) &&
      forall i :: 0 <= i < |queue| ==> queue[i].bytesRecorded == |queue[i].buffer|
    }

    /** The volume of every registered sink. */
    function Volumes(): (m: map<string, real>)
      reads this, Repr
      requires Valid()
      ensures m.Keys == outputs.Keys
      ensures forall id :: id in m ==> m[id] == outputs[id].volume
    {
      map id | id in outputs :: outputs[id].volume
    }

    /** Capture runs exactly when some sink is registered. */
    ghost predicate Coupled()
      reads this
    {
      capturing <==> outputs != map[]
    }

    /** The worker is started at construction. */
    constructor ()
      ensures Valid() && fresh(Repr)
      ensures outputs == map[] && !capturing && captures == 0 && queue == []
      ensures captureBytesPerSecond == CaptureBytesPerSecond
      ensures isRunning && !cancelled && !disposed
    {
      outputs := map[];
      capturing := false;
      captures := 0;
      captureBytesPerSecond := CaptureBytesPerSecond;
      queue := [];
      isRunning := true;
      cancelled := false;
      disposed := false;
      SinkRepr := {};
      Repr := {this};
    }

    /** The active render endpoints (in enumeration order) and the default
        endpoint's id are what the device enumerator reports. */
    method GetAudioDevices(endpoints: seq<Endpoint>, defaultId: string) returns (devices: seq<AudioDevice>)
      requires Valid()
      ensures |devices| == |endpoints|
      ensures forall i :: 0 <= i < |devices| ==>
                devices[i].id == endpoints[i].id && devices[i].name == endpoints[i].name &&
                (devices[i].isDefault <==> endpoints[i].id == defaultId) &&
                (devices[i].isEnabled <==> endpoints[i].id in outputs) &&
                devices[i].volume == (if endpoints[i].id in outputs then outputs[endpoints[i].id].volume else DefaultVolume)
    {
      devices := ListDevices(endpoints, defaultId, Volumes());
    }

    /** resolved: the device id names an endpoint; captureOk: starting the
        loopback capture succeeds, with mixBytesPerSecond as its format;
        sinkOk: the sink's render device initialises (in either mode). */
    method EnableDevice(deviceId: string, volume: real, resolved: bool, captureOk: bool,
                        mixBytesPerSecond: nat, sinkOk: bool, now: int) returns (ok: bool)
      requires Valid() && mixBytesPerSecond > 0
      modifies Repr
      ensures Valid() && fresh(Repr - old(Repr))
      ensures queue == old(queue) && isRunning == old(isRunning) && cancelled == old(cancelled)
      ensures disposed == old(disposed)
      ensures !ok ==> outputs == old(outputs)
      ensures ok ==> deviceId in outputs && outputs == old(outputs)[deviceId := outputs[deviceId]]
      ensures forall id :: id in old(outputs) && id in outputs && (id != deviceId || !resolved) ==>
                outputs[id].Model == old(outputs[id].Model)
      ensures !resolved ==>
                !ok && Repr == old(Repr) && capturing == old(capturing) && captures == old(captures) &&
                captureBytesPerSecond == old(captureBytesPerSecond)
      ensures resolved && deviceId in old(outputs) ==>
                ok && outputs == old(outputs) && Repr == old(Repr) &&
                capturing == old(capturing) && captures == old(captures) &&
                captureBytesPerSecond == old(captureBytesPerSecond) &&
                outputs[deviceId].Model == old(outputs[deviceId].Model).(volume := Clamp(volume))
      ensures resolved && deviceId !in old(outputs) ==> ok == sinkOk
      ensures resolved && deviceId !in old(outputs) && old(outputs) == map[] ==>
                capturing == (old(capturing) || captureOk) &&
                captures == old(captures) + (if captureOk then 1 else 0) &&
                captureBytesPerSecond == (if captureOk then mixBytesPerSecond else old(captureBytesPerSecond))
      ensures resolved && deviceId !in old(outputs) && old(outputs) != map[] ==>
                capturing == old(capturing) && captures == old(captures) &&
                captureBytesPerSecond == old(captureBytesPerSecond)
      ensures resolved && deviceId !in old(outputs) && sinkOk ==>
                fresh(outputs[deviceId]) &&
                outputs[deviceId].Model == Initial(volume, captureBytesPerSecond, now)
      ensures old(Coupled()) && ok && (old(outputs) == map[] ==> captureOk) ==> Coupled()
      /** A capture still recording with no sink registered (a failed enable
          leaves one) is not stopped by the next start: two captures now
          deliver every frame. */
      ensures resolved && old(outputs) == map[] && old(capturing) && captureOk ==> captures >= 2
    {
      if !resolved {
        return false;
      }
      if deviceId in outputs {
        SetSinkVolume(deviceId, volume);
        return true;
      }
      ok := EnableNewDevice(deviceId, volume, captureOk, mixBytesPerSecond, sinkOk, now);
    }

    /** EnableDevice for a resolved id that has no sink yet: the first sink
        starts the capture, then the sink is created and registered. */
    method EnableNewDevice(deviceId: string, volume: real, captureOk: bool,
                           mixBytesPerSecond: nat, sinkOk: bool, now: int) returns (ok: bool)
      requires Valid() && mixBytesPerSecond > 0 && deviceId !in outputs
      modifies Repr
      ensures Valid() && fresh(Repr - old(Repr))
      ensures queue == old(queue) && isRunning == old(isRunning) && cancelled == old(cancelled)
      ensures disposed == old(disposed) && ok == sinkOk
      ensures !ok ==> outputs == old(outputs)
      ensures ok ==> deviceId in outputs && outputs == old(outputs)[deviceId := outputs[deviceId]]
      ensures forall id :: id in old(outputs) && id in outputs ==> outputs[id].Model == old(outputs[id].Model)
      ensures old(outputs) == map[] ==>
                capturing == (old(capturing) || captureOk) &&
                captures == old(captures) + (if captureOk then 1 else 0) &&
                captureBytesPerSecond == (if captureOk then mixBytesPerSecond else old(captureBytesPerSecond))
      ensures old(outputs) != map[] ==>
                capturing == old(capturing) && captures == old(captures) &&
                captureBytesPerSecond == old(captureBytesPerSecond)
      ensures ok ==> fresh(outputs[deviceId]) && outputs[deviceId].Model == Initial(volume, captureBytesPerSecond, now)
      ensures old(Coupled()) && ok && (old(outputs) == map[] ==> captureOk) ==> Coupled()
    {
      if outputs == map[] {
        StartAudioCapture(captureOk, mixBytesPerSecond);
      }
      if !sinkOk {
        return false;
      }
      AddSink(deviceId, volume, now);
      return true;
    }

    /** Registers a new sink for deviceId in the capture format. */
    method AddSink(deviceId: string, volume: real, now: int)
      requires Valid() && deviceId !in outputs
      modifies this
      ensures Valid() && fresh(Repr - old(Repr))
      ensures queue == old(queue) && isRunning == old(isRunning) && cancelled == old(cancelled)
      ensures disposed == old(disposed) && capturing == old(capturing) && captures == old(captures)
      ensures captureBytesPerSecond == old(captureBytesPerSecond)
      ensures deviceId in outputs && outputs == old(outputs)[deviceId := outputs[deviceId]]
      ensures forall id :: id in outputs && id != deviceId ==>
                outputs[id].Model == old(outputs[id].Model)
      ensures fresh(outputs[deviceId])
      ensures outputs[deviceId].Model == Initial(volume, captureBytesPerSecond, now)
    {
      var outputDevice := new AdvancedAudioOutput(volume, captureBytesPerSecond, RequestedBufferMs, now);
      Register(deviceId, outputDevice);
    }

    /** Adds sink s, whose objects are new to the engine, under deviceId. */
    method Register(deviceId: string, s: AdvancedAudioOutput)
      requires Valid() && deviceId !in outputs && s.Valid() && WellFormed(s.Model) && s.Repr !! Repr
      modifies this
      ensures Valid() && Repr == old(Repr) + s.Repr
      ensures queue == old(queue) && isRunning == old(isRunning) && cancelled == old(cancelled)
      ensures disposed == old(disposed) && capturing == old(capturing) && captures == old(captures)
      ensures captureBytesPerSecond == old(captureBytesPerSecond)
      ensures outputs == old(outputs)[deviceId := s]
    {
      RegistryWith(outputs, SinkRepr, deviceId, s);
      assert this !in SinkRepr + s.Repr;
      outputs, SinkRepr, Repr := outputs[deviceId := s], SinkRepr + s.Repr, Repr + s.Repr;
    }

    method DisableDevice(deviceId: string) returns (ok: bool)
      requires Valid()
      modifies Repr
      ensures Valid() && Repr == old(Repr)
      ensures queue == old(queue) && isRunning == old(isRunning) && cancelled == old(cancelled)
      ensures disposed == old(disposed) && captureBytesPerSecond == old(captureBytesPerSecond)
      ensures ok == (deviceId in old(outputs))
      ensures outputs == old(outputs) - {deviceId}
      ensures forall id :: id in outputs ==>
                outputs[id].Model == old(outputs[id].Model)
      ensures ok ==> old(outputs)[deviceId].Model == old(outputs[deviceId].Model).(playing := false)
      ensures capturing == (old(capturing) && !(ok && outputs == map[]))
      ensures captures == (if old(capturing) && ok && outputs == map[] then old(captures) - 1 else old(captures))
      ensures old(Coupled()) ==> Coupled()
    {
      if deviceId !in outputs {
        return false;
      }
      RemoveSink(deviceId);
      if outputs == map[] {
        StopAudioCapture();
      }
      return true;
    }

    /** Takes sink k out of the registry and stops its render device. */
    method RemoveSink(k: string)
      requires Valid() && k in outputs
      modifies Repr
      ensures Valid() && Repr == old(Repr)
      ensures queue == old(queue) && isRunning == old(isRunning) && cancelled == old(cancelled)
      ensures disposed == old(disposed) && captureBytesPerSecond == old(captureBytesPerSecond)
      ensures capturing == old(capturing) && captures == old(captures)
      ensures outputs == old(outputs) - {k}
      ensures forall id :: id in outputs ==>
                outputs[id].Model == old(outputs[id].Model)
      ensures old(outputs)[k].Model == old(outputs[k].Model).(playing := false)
    {
      DisposeSink(k);
      RegistryWithout(outputs, SinkRepr, k);
      outputs := outputs - {k};
    }

    method SetDeviceVolume(deviceId: string, volume: real) returns (ok: bool)
      requires Valid()
      modifies Repr
      ensures Valid() && Repr == old(Repr)
      ensures unchanged(this)
      ensures ok == (deviceId in outputs)
      ensures forall id :: id in outputs && id != deviceId ==> outputs[id].Model == old(outputs[id].Model)
      ensures ok ==> outputs[deviceId].Model == old(outputs[deviceId].Model).(volume := Clamp(volume))
    {
      if deviceId !in outputs {
        return false;
      }
      SetSinkVolume(deviceId, volume);
      return true;
    }

    /** The registry's frame rule: when nothing outside sink k's objects has
        changed and sink k is still valid, the registry is valid and every
        other sink keeps its state. */
    twostate lemma OnlySinkChanged(k: string)
      requires old(Valid()) && unchanged(this) && k in outputs && outputs[k].Valid() && WellFormed(outputs[k].Model)
      requires forall o :: o in old(SinkRepr) && o !in outputs[k].Repr ==> unchanged(o)
      ensures Valid()
      ensures forall id :: id in outputs && id != k ==>
                outputs[id].Model == old(outputs[id].Model)
    {
    }

    /** Every registered sink keeps its underrun streak in 0..2 and is never
        overfull, so no registered sink ever takes the overrun reset. */
    lemma SinksNeverReset()
      requires Valid()
      ensures forall id :: id in outputs ==>
                0 <= outputs[id].Model.underrun < UnderrunLimit &&
                !Overfull(|outputs[id].Model.buffered|, outputs[id].Model.bytesPerSecond)
    {
      forall id | id in outputs
        ensures !Overfull(|outputs[id].Model.buffered|, outputs[id].Model.bytesPerSecond)
      {
        NeverOverfull(outputs[id].Model);
      }
    }

    /** One captured frame to sink k. */
    method DeliverTo(k: string, buffer: seq<byte>, n: int, now: int)
      requires Valid() && k in outputs && 0 <= n <= |buffer|
      modifies Repr
      ensures Valid() && unchanged(this)
      ensures outputs[k].Model == Deliver(old(outputs[k].Model), buffer, n, now)
      ensures forall id :: id in outputs && id != k ==> outputs[id].Model == old(outputs[id].Model)
    {
      outputs[k].ProcessAudio(buffer, n, now);
      OnlySinkChanged(k);
    }

    /** Sink k's volume, clamped. */
    method SetSinkVolume(k: string, volume: real)
      requires Valid() && k in outputs
      modifies Repr
      ensures Valid() && unchanged(this)
      ensures outputs[k].Model == old(outputs[k].Model).(volume := Clamp(volume))
      ensures forall id :: id in outputs && id != k ==> outputs[id].Model == old(outputs[id].Model)
    {
      outputs[k].SetVolume(volume);
      OnlySinkChanged(k);
    }

    /** Stops sink k's render device. */
    method DisposeSink(k: string)
      requires Valid() && k in outputs
      modifies Repr
      ensures Valid() && unchanged(this)
      ensures outputs[k].Model == old(outputs[k].Model).(playing := false)
      ensures forall id :: id in outputs && id != k ==>
                outputs[id].Model == old(outputs[id].Model)
    {
      outputs[k].Dispose();
      OnlySinkChanged(k);
    }

    /** Creates and starts a new loopback capture. The engine then holds the new
        one; an earlier one still recording is not stopped. */
    method StartAudioCapture(captureOk: bool, mixBytesPerSecond: nat)
      requires Valid() && mixBytesPerSecond > 0
      modifies this
      ensures Valid() && Repr == old(Repr) && outputs == old(outputs) && queue == old(queue)
      ensures isRunning == old(isRunning) && cancelled == old(cancelled) && disposed == old(disposed)
      ensures capturing == (old(capturing) || captureOk)
      ensures captures == old(captures) + (if captureOk then 1 else 0)
      ensures captureBytesPerSecond == (if captureOk then mixBytesPerSecond else old(captureBytesPerSecond))
    {
      if captureOk {
        captureBytesPerSecond := mixBytesPerSecond;
        capturing := true;
        captures := captures + 1;
      }
    }

    /** Stops the capture the engine holds, if it is recording. */
    method StopAudioCapture()
      requires Valid()
      modifies this
      ensures Valid() && Repr == old(Repr) && outputs == old(outputs) && queue == old(queue)
      ensures isRunning == old(isRunning) && cancelled == old(cancelled) && disposed == old(disposed)
      ensures captureBytesPerSecond == old(captureBytesPerSecond)
      ensures !capturing && captures == (if old(capturing) then old(captures) - 1 else old(captures))
    {
      if capturing {
        captures := captures - 1;
      }
      capturing := false;
    }

    /** The same frame to every registered sink, each exactly once. */
    method FanOut(buffer: seq<byte>, n: int, now: int)
      requires Valid() && 0 <= n <= |buffer|
      modifies Repr
      ensures Valid() && unchanged(this)
      ensures forall id :: id in outputs ==> outputs[id].Model == Deliver(old(outputs[id].Model), buffer, n, now)
    {
      var pending := outputs.Keys;
      while pending != {}
        invariant pending <= outputs.Keys
        invariant Valid() && unchanged(this)
        invariant forall id :: id in pending ==> outputs[id].Model == old(outputs[id].Model)
        invariant forall id :: id in outputs && id !in pending ==>
                    outputs[id].Model == Deliver(old(outputs[id].Model), buffer, n, now)
        decreases pending
      {
        pending := DeliverAny(pending, buffer, n, now);
      }
    }

    /** One step of the fan-out: some pending sink takes the frame. */
    method DeliverAny(pending: set<string>, buffer: seq<byte>, n: int, now: int) returns (rest: set<string>)
      requires Valid() && pending != {} && pending <= outputs.Keys && 0 <= n <= |buffer|
      modifies Repr
      ensures Valid() && unchanged(this)
      ensures rest < pending
      ensures forall id :: id in rest ==> outputs[id].Model == old(outputs[id].Model)
      ensures forall id :: id in pending && id !in rest ==> outputs[id].Model == Deliver(old(outputs[id].Model), buffer, n, now)
      ensures forall id :: id in outputs && id !in pending ==> outputs[id].Model == old(outputs[id].Model)
    {
      var id :| id in pending;
      DeliverTo(id, buffer, n, now);
      rest := pending - {id};
      forall x | x in pending && x !in rest
        ensures outputs[x].Model == Deliver(old(outputs[x].Model), buffer, n, now)
      {
        assert x == id;
      }
    }

    /** The capture callback. */
    method OnAudioDataAvailable(buffer: seq<byte>, bytesRecorded: int, now: int)
      requires Valid() && bytesRecorded <= |buffer|
      modifies Repr
      ensures Valid() && Repr == old(Repr) && outputs == old(outputs) && capturing == old(capturing)
      ensures captures == old(captures) && captureBytesPerSecond == old(captureBytesPerSecond)
      ensures isRunning == old(isRunning) && cancelled == old(cancelled) && disposed == old(disposed)
      ensures bytesRecorded <= 0 ==>
                queue == old(queue) && forall id :: id in outputs ==> outputs[id].Model == old(outputs[id].Model)
      ensures bytesRecorded > 0 && |outputs| <= DirectSinkLimit ==>
                queue == old(queue) &&
                forall id :: id in outputs ==> outputs[id].Model == Deliver(old(outputs[id].Model), buffer, bytesRecorded, now)
      ensures bytesRecorded > 0 && |outputs| > DirectSinkLimit ==>
                queue == old(queue) + [Frame(buffer[..bytesRecorded], bytesRecorded)] &&
                forall id :: id in outputs ==> outputs[id].Model == old(outputs[id].Model)
    {
      if bytesRecorded <= 0 {
        return;
      }
      if |outputs| <= DirectSinkLimit {
        FanOut(buffer, bytesRecorded, now);
        return;
      }
      var bufferCopy := buffer[..bytesRecorded];
      queue := queue + [Frame(bufferCopy, bytesRecorded)];
    }

    /** One pass of the worker loop: while the engine runs and is not cancelled,
        every queued frame is taken off the queue, oldest first, and delivered
        to every registered sink. processed tells whether there was any. */
    method ProcessAudioQueue(now: int) returns (processed: bool)
      requires Valid()
      modifies Repr
      ensures Valid() && Repr == old(Repr) && outputs == old(outputs) && capturing == old(capturing)
      ensures captures == old(captures) && captureBytesPerSecond == old(captureBytesPerSecond)
      ensures isRunning == old(isRunning) && cancelled == old(cancelled) && disposed == old(disposed)
      ensures !(old(isRunning) && !old(cancelled)) ==>
                !processed && queue == old(queue) &&
                forall id :: id in outputs ==> outputs[id].Model == old(outputs[id].Model)
      ensures old(isRunning) && !old(cancelled) ==>
                queue == [] && processed == (old(queue) != []) &&
                forall id :: id in outputs ==> outputs[id].Model == DeliverAll(old(outputs[id].Model), old(queue), now)
    {
      processed := false;
      if isRunning && !cancelled {
        processed := DrainQueue(now);
      }
    }

    /** The inner loop of the worker: the queue emptied in order. */
    method DrainQueue(now: int) returns (processed: bool)
      requires Valid()
      modifies Repr
      ensures Valid() && Repr == old(Repr) && outputs == old(outputs) && capturing == old(capturing)
      ensures captures == old(captures) && captureBytesPerSecond == old(captureBytesPerSecond)
      ensures isRunning == old(isRunning) && cancelled == old(cancelled) && disposed == old(disposed)
      ensures queue == [] && processed == (old(queue) != [])
      ensures forall id :: id in outputs ==> outputs[id].Model == DeliverAll(old(outputs[id].Model), old(queue), now)
    {
      processed := false;
      while queue != []
        invariant Valid() && Repr == old(Repr) && outputs == old(outputs) && capturing == old(capturing)
        invariant captures == old(captures) && captureBytesPerSecond == old(captureBytesPerSecond)
        invariant isRunning == old(isRunning) && cancelled == old(cancelled) && disposed == old(disposed)
        invariant processed == (|queue| < |old(queue)|)
        invariant forall id :: id in outputs ==> Consistent(old(outputs[id].Model))
        invariant forall id :: id in outputs ==>
                    DeliverAll(outputs[id].Model, queue, now) == DeliverAll(old(outputs[id].Model), old(queue), now)
        decreases |queue|
      {
        DeliverOldest(now);
        processed := true;
      }
    }

    /** Takes the oldest queued frame off the queue and delivers it to every sink. */
    method DeliverOldest(now: int)
      requires Valid() && queue != []
      modifies Repr
      ensures Valid() && Repr == old(Repr) && outputs == old(outputs) && capturing == old(capturing)
      ensures captures == old(captures) && captureBytesPerSecond == old(captureBytesPerSecond)
      ensures isRunning == old(isRunning) && cancelled == old(cancelled) && disposed == old(disposed)
      ensures queue == old(queue)[1..]
      ensures forall id :: id in outputs ==>
                outputs[id].Model == Deliver(old(outputs[id].Model), old(queue)[0].buffer, old(queue)[0].bytesRecorded, now)
    {
      var audioData := queue[0];
      queue := queue[1..];
      FanOut(audioData.buffer, audioData.bytesRecorded, now);
    }

    /** Stops the render device of every registered sink. */
    method DisposeAll()
      requires Valid()
      modifies Repr
      ensures Valid() && unchanged(this)
      ensures forall id :: id in outputs ==> outputs[id].Model == old(outputs[id].Model).(playing := false)
    {
      var pending := outputs.Keys;
      while pending != {}
        invariant pending <= outputs.Keys
        invariant Valid() && unchanged(this)
        invariant forall id :: id in outputs ==>
                    outputs[id].Model == if id in pending then old(outputs[id].Model) else old(outputs[id].Model).(playing := false)
        decreases pending
      {
        pending := DisposeAny(pending);
      }
    }

    /** One step of DisposeAll: some pending sink stops its render device. */
    method DisposeAny(pending: set<string>) returns (rest: set<string>)
      requires Valid() && pending != {} && pending <= outputs.Keys
      modifies Repr
      ensures Valid() && unchanged(this)
      ensures rest < pending
      ensures forall id :: id in outputs ==>
                outputs[id].Model ==
                  if id in pending && id !in rest then old(outputs[id].Model).(playing := false) else old(outputs[id].Model)
    {
      var id :| id in pending;
      DisposeSink(id);
      rest := pending - {id};
    }

    /** Stops the worker and the capture, disposes every sink and empties the
        registry. ok is false when the call throws because the cancellation
        source was already disposed by an earlier call; nothing else then changes. */
    method Dispose() returns (ok: bool)
      requires Valid()
      modifies Repr
      ensures Valid() && Repr == old(Repr) && !isRunning && queue == old(queue)
      ensures ok == !old(disposed) && captureBytesPerSecond == old(captureBytesPerSecond)
      ensures !ok ==>
                outputs == old(outputs) && capturing == old(capturing) && captures == old(captures) &&
                cancelled == old(cancelled) &&
                forall id :: id in outputs ==> outputs[id].Model == old(outputs[id].Model)
      ensures ok ==> captures == (if old(capturing) then old(captures) - 1 else old(captures))
      ensures ok ==> outputs == map[] && !capturing && cancelled && disposed &&
                     forall id :: id in old(outputs) ==> old(outputs)[id].Model == old(outputs[id].Model).(playing := false)
    {
      isRunning := false;
      if disposed {
        return false;
      }
      cancelled := true;
      ReleaseAll();
      disposed := true;
      return true;
    }

    /** Stops the capture, disposes every sink and empties the registry. */
    method ReleaseAll()
      requires Valid()
      modifies Repr
      ensures Valid() && Repr == old(Repr) && queue == old(queue) && outputs == map[] && !capturing
      ensures isRunning == old(isRunning) && cancelled == old(cancelled) && disposed == old(disposed)
      ensures captureBytesPerSecond == old(captureBytesPerSecond)
      ensures captures == (if old(capturing) then old(captures) - 1 else old(captures))
      ensures forall id :: id in old(outputs) ==> old(outputs)[id].Model == old(outputs[id].Model).(playing := false)
    {
      StopAudioCapture();
      DisposeAll();
      ClearRegistry();
    }

    /** Empties the registry; the sinks themselves are left as they are. */
    method ClearRegistry()
      requires Valid()
      modifies this
      ensures Valid() && Repr == old(Repr) && outputs == map[] && queue == old(queue)
      ensures capturing == old(capturing) && captures == old(captures)
      ensures captureBytesPerSecond == old(captureBytesPerSecond)
      ensures isRunning == old(isRunning) && cancelled == old(cancelled) && disposed == old(disposed)
    {
      outputs := map[];
    }
  }
}
