/** The older routing engine: a registry of queued sinks keyed by device id and
    the loopback capture's lifecycle. Every captured frame is handed to every
    registered sink, which copies it onto its own queue. */
module BasicRouting {
  import opened Common
  import opened Devices
  import opened BasicSink

  /** The latency, in milliseconds, every new sink is given. */
  const SinkBufferMs: nat := 600

  /** Every sink of the registry is valid, in the footprint and in a state its
      constructor and operations can produce, and no sink is registered under
      two ids. */
  ghost predicate Registry(outs: map<string, AudioDeviceOutput>, footprint: set<object>)
    reads footprint
  {
    (forall id :: id in outs ==> outs[id] in footprint && outs[id].Valid() && WellFormed(outs[id].Model)) &&
    (forall id1, id2 :: id1 in outs && id2 in outs && id1 != id2 ==> outs[id1] != outs[id2])
  }

  /** The native routing path: a placeholder that never takes over. */
  function TryEnableNativeRouting(deviceId: string, volume: real): (ok: bool)
    ensures !ok
  {
    false
  }

  class AudioEngine {
    var outputs: map<string, AudioDeviceOutput>
    /** A loopback capture object exists (the capture field is not null). */
    var capturing: bool
    const useNativeWindowsRouting: bool
    ghost var Repr: set<object>
    /** The registered sinks. */
    ghost var SinkRepr: set<object>

    ghost predicate Valid()
      reads this, Repr
    {
      Repr == {this} + SinkRepr && this !in SinkRepr && Registry(outputs, SinkRepr)
    }

    /** Capture exists exactly when some sink is registered. */
    ghost predicate Coupled()
      reads this
    {
      capturing <==> outputs != map[]
    }

    /** The volume of every registered sink. */
    function Volumes(): (m: map<string, real>)
      reads this, Repr
      requires Valid()
      ensures m.Keys == outputs.Keys
      ensures forall id :: id in m ==> m[id] == outputs[id].volume
    {
      map id | id in outputs :: outputs[id].volume
    }

    /** The session manager that native routing would use is not modelled. */
    constructor (useNativeWindowsRouting: bool)
      ensures Valid() && fresh(Repr)
      ensures outputs == map[] && !capturing
      ensures this.useNativeWindowsRouting == useNativeWindowsRouting
    {
      outputs := map[];
      capturing := false;
      this.useNativeWindowsRouting := useNativeWindowsRouting;
      SinkRepr := {};
      Repr := {this};
    }

    /** The active render endpoints (in enumeration order) and the default
        endpoint's id are what the device enumerator reports. */
    method GetAudioDevices(endpoints: seq<Endpoint>, defaultId: string) returns (devices: seq<AudioDevice>)
      requires Valid()
      ensures |devices| == |endpoints|
      ensures forall i :: 0 <= i < |devices| ==>
                devices[i].id == endpoints[i].id && devices[i].name == endpoints[i].name &&
                (devices[i].isDefault <==> endpoints[i].id == defaultId) &&
                (devices[i].isEnabled <==> endpoints[i].id in outputs) &&
                devices[i].volume == (if endpoints[i].id in outputs then outputs[endpoints[i].id].volume else DefaultVolume)
    {
      devices := ListDevices(endpoints, defaultId, Volumes());
    }

    /** resolved: the device id names an endpoint; captureOk: creating and
        starting the loopback capture succeeds; sinkOk: the sink's render
        device initialises (in either mode). */
    method EnableDevice(deviceId: string, volume: real, resolved: bool, captureOk: bool, sinkOk: bool, now: int)
      returns (ok: bool)
      requires Valid()
      modifies this
      ensures Valid() && fresh(Repr - old(Repr))
      ensures !ok ==> outputs == old(outputs)
      ensures !resolved ==> !ok && capturing == old(capturing)
      ensures resolved && deviceId in old(outputs) ==>
                ok && outputs == old(outputs) && capturing == old(capturing) && Repr == old(Repr)
      ensures resolved && deviceId !in old(outputs) ==>
                ok == sinkOk && capturing == (old(capturing) || captureOk)
      ensures resolved && deviceId !in old(outputs) && sinkOk ==>
                deviceId in outputs && outputs == old(outputs)[deviceId := outputs[deviceId]] &&
                fresh(outputs[deviceId]) && outputs[deviceId].Model == Initial(volume, CaptureBytesPerSecond, SinkBufferMs, now)
      ensures old(Coupled()) && ok && (old(outputs) == map[] ==> captureOk) ==> Coupled()
    {
      if !resolved {
        return false;
      }
      if deviceId in outputs {
        return true;
      }
      if useNativeWindowsRouting && TryEnableNativeRouting(deviceId, volume) {
        return true;
      }
      StartManualRouting(captureOk);
      if !sinkOk {
        return false;
      }
      AddSink(deviceId, volume, now);
      return true;
    }

    /** Registers a new sink for deviceId in the capture format. */
    method AddSink(deviceId: string, volume: real, now: int)
      requires Valid() && deviceId !in outputs
      modifies this
      ensures Valid() && fresh(Repr - old(Repr)) && capturing == old(capturing)
      ensures deviceId in outputs && outputs == old(outputs)[deviceId := outputs[deviceId]]
      ensures fresh(outputs[deviceId])
      ensures outputs[deviceId].Model == Initial(volume, CaptureBytesPerSecond, SinkBufferMs, now)
    {
      var outputDevice := new AudioDeviceOutput(volume, CaptureBytesPerSecond, SinkBufferMs, now);
      outputs := outputs[deviceId := outputDevice];
      SinkRepr := SinkRepr + {outputDevice};
      Repr := Repr + {outputDevice};
    }

    /** Starts the capture unless one already exists. */
    method StartManualRouting(captureOk: bool)
      requires Valid()
      modifies this
      ensures Valid() && Repr == old(Repr) && outputs == old(outputs)
      ensures capturing == (old(capturing) || captureOk)
    {
      if !capturing {
        StartAudioCapture(captureOk);
      }
    }

    /** A failed start is caught and leaves no capture behind. */
    method StartAudioCapture(captureOk: bool)
      requires Valid()
      modifies this
      ensures Valid() && Repr == old(Repr) && outputs == old(outputs)
      ensures capturing == (old(capturing) || captureOk)
    {
      if captureOk {
        capturing := true;
      }
    }

    method StopAudioCapture()
      requires Valid()
      modifies this
      ensures Valid() && Repr == old(Repr) && outputs == old(outputs)
      ensures !capturing
    {
      capturing := false;
    }

    method DisableDevice(deviceId: string) returns (ok: bool)
      requires Valid()
      modifies Repr
      ensures Valid() && Repr == old(Repr)
      ensures ok == (deviceId in old(outputs))
      ensures outputs == old(outputs) - {deviceId}
      ensures forall id :: id in outputs ==>
                outputs[id].Model == old(outputs[id].Model)
      ensures ok ==> old(outputs)[deviceId].Model ==
                       old(outputs[deviceId].Model).(queue := [], playing := false, ticking := false)
      ensures capturing == (old(capturing) && !(ok && outputs == map[]))
      ensures old(Coupled()) ==> Coupled()
    {
      if deviceId !in outputs {
        return false;
      }
      RemoveSink(deviceId);
      if |outputs| == 0 && capturing {
        StopAudioCapture();
      }
      return true;
    }

    /** Takes sink k out of the registry and disposes it. */
    method RemoveSink(k: string)
      requires Valid() && k in outputs
      modifies Repr
      ensures Valid() && Repr == old(Repr) && capturing == old(capturing)
      ensures outputs == old(outputs) - {k}
      ensures forall id :: id in outputs ==>
                outputs[id].Model == old(outputs[id].Model)
      ensures old(outputs)[k].Model == old(outputs[k].Model).(queue := [], playing := false, ticking := false)
    {
      DisposeSink(k);
      outputs := outputs - {k};
    }

    method SetDeviceVolume(deviceId: string, volume: real) returns (ok: bool)
      requires Valid()
      modifies Repr
      ensures Valid() && unchanged(this)
      ensures ok == (deviceId in outputs)
      ensures forall id :: id in outputs && id != deviceId ==> outputs[id].Model == old(outputs[id].Model)
      ensures ok ==> outputs[deviceId].Model == old(outputs[deviceId].Model).(volume := Clamp(volume))
    {
      if deviceId !in outputs {
        return false;
      }
      outputs[deviceId].SetVolume(volume);
      OnlySinkChanged(deviceId);
      return true;
    }

    /** The registry's frame rule: when only sink k has changed and it is
        still valid, the registry is valid and every other sink keeps its state. */
    twostate lemma OnlySinkChanged(k: string)
      requires old(Valid()) && unchanged(this) && k in outputs && outputs[k].Valid() && WellFormed(outputs[k].Model)
      requires forall o :: o in old(SinkRepr) && o != outputs[k] ==> unchanged(o)
      ensures Valid()
      ensures forall id :: id in outputs && id != k ==> outputs[id].Model == old(outputs[id].Model)
    {
    }

    /** No sink the engine holds ever counts an overflow, and none has an
        empty frame queued. */
    lemma SinksNeverOverflow(now: int)
      requires Valid()
      ensures forall id :: id in outputs ==>
                Monitor(outputs[id].Model, now).overflow == outputs[id].Model.overflow &&
                AllNonEmpty(outputs[id].Model.queue)
    {
      forall id | id in outputs
        ensures Monitor(outputs[id].Model, now).overflow == outputs[id].Model.overflow
      {
        OverflowCountStays(outputs[id].Model, now);
      }
    }

    /** Stops sink k and discards its queue. */
    method DisposeSink(k: string)
      requires Valid() && k in outputs
      modifies Repr
      ensures Valid() && unchanged(this)
      ensures outputs[k].Model == old(outputs[k].Model).(queue := [], playing := false, ticking := false)
      ensures forall id :: id in outputs && id != k ==> outputs[id].Model == old(outputs[id].Model)
    {
      outputs[k].Dispose();
      OnlySinkChanged(k);
    }

    /** The capture callback: a zero-length frame is ignored; otherwise every
        registered sink is offered the frame once, and a copy that throws in one
        sink is caught without stopping delivery to the others. */
    method OnAudioDataAvailable(buffer: seq<byte>, bytesRecorded: int)
      requires Valid()
      modifies Repr
      ensures Valid() && unchanged(this)
      ensures bytesRecorded == 0 ==> forall id :: id in outputs ==> outputs[id].Model == old(outputs[id].Model)
      ensures forall id :: id in outputs ==> outputs[id].Model == Offer(old(outputs[id].Model), buffer, bytesRecorded)
    {
      if bytesRecorded == 0 {
        return;
      }
      var pending := outputs.Keys;
      while pending != {}
        invariant pending <= outputs.Keys
        invariant Valid() && unchanged(this)
        invariant forall id :: id in outputs ==>
                    outputs[id].Model ==
                      if id in pending then old(outputs[id].Model) else Offer(old(outputs[id].Model), buffer, bytesRecorded)
        decreases pending
      {
        var id :| id in pending;
        OfferTo(id, buffer, bytesRecorded);
        pending := pending - {id};
      }
    }

    /** One captured frame to sink k. */
    method OfferTo(k: string, buffer: seq<byte>, n: int)
      requires Valid() && k in outputs
      modifies Repr
      ensures Valid() && unchanged(this)
      ensures outputs[k].Model == Offer(old(outputs[k].Model), buffer, n)
      ensures forall id :: id in outputs && id != k ==> outputs[id].Model == old(outputs[id].Model)
    {
      OperationsWellFormed(outputs[k].Model, buffer, n, 0);
      var _ := outputs[k].ProcessAudioData(buffer, n);
      OnlySinkChanged(k);
    }

    /** Stops the capture, disposes every sink and empties the registry. */
    method Dispose()
      requires Valid()
      modifies Repr
      ensures Valid() && Repr == old(Repr)
      ensures outputs == map[] && !capturing
      ensures forall id :: id in old(outputs) ==>
                old(outputs)[id].Model == old(outputs[id].Model).(queue := [], playing := false, ticking := false)
    {
      StopAudioCapture();
      DisposeAll();
      outputs := map[];
    }

    /** Stops every registered sink and discards its queue. */
    method DisposeAll()
      requires Valid()
      modifies Repr
      ensures Valid() && unchanged(this)
      ensures forall id :: id in outputs ==>
                outputs[id].Model == old(outputs[id].Model).(queue := [], playing := false, ticking := false)
    {
      var pending := outputs.Keys;
      while pending != {}
        invariant pending <= outputs.Keys
        invariant Valid() && unchanged(this)
        invariant forall id :: id in outputs ==>
                    if id in pending then outputs[id].Model == old(outputs[id].Model)
                    else outputs[id].Model == old(outputs[id].Model).(queue := [], playing := false, ticking := false)
        decreases pending
      {
        var id :| id in pending;
        DisposeSink(id);
        pending := pending - {id};
      }
    }
  }
}
