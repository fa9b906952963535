/**
 * Element types of the audio path and the little-endian PCM16 byte layout.
 * The ESP32 is little-endian, so viewing a frame of 16-bit samples as bytes
 * (as the stream tasks do when they send a frame) yields, per sample, the
 * low byte followed by the high byte of its two's-complement value.
 */
module Pcm {
  newtype Byte = x: int | 0 <= x < 256
  newtype Sample = x: int | -32768 <= x < 32768

  /** The two bytes of one sample, low byte first. */
  function SampleBytes(s: Sample): (b: seq<Byte>)
    ensures |b| == 2
  {
    var u := if s < 0 then s as int + 65536 else s as int;
    [(u % 256) as Byte, (u / 256) as Byte]
  }

  /** The sample whose little-endian bytes are `lo`, `hi`. */
  function BytesSample(lo: Byte, hi: Byte): Sample
  {
    var u := hi as int * 256 + lo as int;
    if u >= 32768 then (u - 65536) as Sample else u as Sample
  }

  /** A frame of samples as the bytes handed to the transport. */
  function Encode(samples: seq<Sample>): (b: seq<Byte>)
    ensures |b| == 2 * |samples|
  {
    if samples == [] then [] else SampleBytes(samples[0]) + Encode(samples[1..])
  }

  function Decode(b: seq<Byte>): (s: seq<Sample>)
    requires |b| % 2 == 0
    ensures |s| == |b| / 2
  {
    if b == [] then [] else [BytesSample(b[0], b[1])] + Decode(b[2..])
  }

  lemma SampleRoundTrip(s: Sample)
    ensures BytesSample(SampleBytes(s)[0], SampleBytes(s)[1]) == s
  {
  }

  /** Decoding the sent bytes recovers the frame exactly. */
  lemma {:induction false} DecodeEncode(samples: seq<Sample>)
    ensures Decode(Encode(samples)) == samples
  {
    if samples != [] {
      var b := Encode(samples);
      SampleRoundTrip(samples[0]);
      assert b[2..] == Encode(samples[1..]);
      DecodeEncode(samples[1..]);
    }
  }
}
