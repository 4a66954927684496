/** Vocabulary shared by both engines: bytes, frames, volume clamping and a
    value stand-in for the audio library's buffered wave provider, which each
    sink uses as its delivery buffer (the buffer the device's render thread
    pulls from). */
module Common {

  newtype byte = b: int | 0 <= b < 256

  /** One capture callback: the callback's buffer and its count of valid bytes. */
  datatype Frame = Frame(buffer: seq<byte>, bytesRecorded: int)

  /** The canonical capture format, 48 kHz, 16-bit, stereo: 48000 * 2 * 2 bytes per second. */
  const CaptureBytesPerSecond: nat := 48000 * 2 * 2

  /** The volume reported for a device that has no active sink. */
  const DefaultVolume: real := 1.0

  function Min(a: int, b: int): int { if a <= b then a else b }

  /** Math.Clamp(v, 0, 1), the clamp both sinks apply in SetVolume. */
  function Clamp(v: real): (r: real)
    ensures 0.0 <= r <= 1.0
    ensures 0.0 <= v <= 1.0 ==> r == v
    ensures v < 0.0 ==> r == 0.0
    ensures v > 1.0 ==> r == 1.0
  {
    if v < 0.0 then 0.0 else if v > 1.0 then 1.0 else v
  }

  /** A freshly allocated byte array of length n: n bytes of silence. */
  function Zeros(n: nat): (r: seq<byte>)
    ensures |r| == n
    ensures forall i :: 0 <= i < n ==> r[i] == 0
  {
    seq(n, _ => 0)
  }

  /** The longest prefix of s that fits in cap bytes. */
  function Take(s: seq<byte>, cap: nat): seq<byte>
  {
    if |s| <= cap then s else s[..cap]
  }

  /** AddSamples on a delivery buffer of capacity cap: the bytes that fit are
      appended after the backlog, the rest are not stored. */
  function AddSamples(buffered: seq<byte>, data: seq<byte>, cap: nat): (r: seq<byte>)
    requires |buffered| <= cap
    ensures |r| == Min(|buffered| + |data|, cap)
    ensures r == buffered + data[..|r| - |buffered|]
    ensures |buffered| + |data| <= cap ==> r == buffered + data
  {
    var r := Take(buffered + data, cap);
    assert r == buffered + data[..|r| - |buffered|];
    r
  }

  /** AddSamples could not store every byte offered. */
  predicate Overflows(buffered: seq<byte>, data: seq<byte>, cap: nat)
  {
    |buffered| + |data| > cap
  }

  /** Two successive additions store what one addition of both would store. */
  lemma AddSamplesTwice(buffered: seq<byte>, x: seq<byte>, y: seq<byte>, cap: nat)
    requires |buffered| <= cap
    ensures AddSamples(AddSamples(buffered, x, cap), y, cap) == AddSamples(buffered, x + y, cap)
  {
    assert buffered + x + y == buffered + (x + y);
  }

  /** Once an addition overflows, the buffer is full and further additions change nothing. */
  lemma AddSamplesWhenFull(buffered: seq<byte>, x: seq<byte>, y: seq<byte>, cap: nat)
    requires |buffered| <= cap && Overflows(buffered, x, cap)
    ensures AddSamples(AddSamples(buffered, x, cap), y, cap) == AddSamples(buffered, x, cap)
  {
  }
}
