/** The device list both engines report: one entry per active render endpoint,
    annotated with default status and the live sink registry. */
module Devices {
  import opened Common

  /** An active render endpoint as the operating system enumerates it. */
  datatype Endpoint = Endpoint(id: string, name: string)

  /** The plain record handed to the user interface. */
  datatype AudioDevice = AudioDevice(id: string, name: string, isDefault: bool, isEnabled: bool, volume: real)

  /** Builds the list in enumeration order. volumes holds the volume of every
      device that has an active sink, keyed by device id. */
  method ListDevices(endpoints: seq<Endpoint>, defaultId: string, volumes: map<string, real>)
    returns (devices: seq<AudioDevice>)
    ensures |devices| == |endpoints|
    ensures forall i :: 0 <= i < |devices| ==>
              devices[i].id == endpoints[i].id && devices[i].name == endpoints[i].name &&
              (devices[i].isDefault <==> endpoints[i].id == defaultId) &&
              (devices[i].isEnabled <==> endpoints[i].id in volumes) &&
              devices[i].volume == (if endpoints[i].id in volumes then volumes[endpoints[i].id] else DefaultVolume)
  {
    devices := [];
    for i := 0 to |endpoints|
      invariant |devices| == i
      invariant forall j :: 0 <= j < i ==>
                  devices[j].id == endpoints[j].id && devices[j].name == endpoints[j].name &&
                  (devices[j].isDefault <==> endpoints[j].id == defaultId) &&
                  (devices[j].isEnabled <==> endpoints[j].id in volumes) &&
                  devices[j].volume == (if endpoints[j].id in volumes then volumes[endpoints[j].id] else DefaultVolume)
    {
      var e := endpoints[i];
      var volume := if e.id in volumes then volumes[e.id] else DefaultVolume;
      devices := devices + [AudioDevice(e.id, e.name, e.id == defaultId, e.id in volumes, volume)];
    }
  }
}
