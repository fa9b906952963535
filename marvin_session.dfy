/**
 * The streaming component of main/MarvinSession.cpp: it listens to the
 * audio session's detect/speech/silence events, trims the session's ring of
 * 16-bit frames to a two-frame preroll when speech starts, and runs the
 * stream task of the `Streaming` module with the closing message
 * {"type":"stop"}; each frame goes out as its `frameSize * 2` little-endian
 * bytes. `afeDetected` sets `running_` before it starts the task. Its
 * `waitUntil` subtracts 32-bit tick-derived readings (`Wait.Narrow`).
 */
module MarvinSession {
  import opened Pcm
  import RingSpec
  import AudioBuffer
  import Streaming
  import opened Wait

  const PrerollFrames: nat := 2

  /** A closure posted to the application's dispatch queue. */
  datatype Posted = ResetStreamTask

  class Session {
    const deviceId: string
    const ring: AudioBuffer.Ring<Sample>
    var running: bool
    var streaming: bool
    /** `streamTask_` holds a task. */
    var taskActive: bool
    /** The application's dispatch queue, as far as this component posts to it. */
    var posted: seq<Posted>
    /** Every message handed to a WebSocket, in order. */
    var sent: seq<Streaming.Message>

    ghost predicate Valid()
      reads this, ring, ring.frames
    {
      ring.Valid()
    }

    constructor (deviceId: string, ring: AudioBuffer.Ring<Sample>)
      requires ring.Valid()
      ensures Valid() && this.ring == ring && this.deviceId == deviceId
      ensures !running && !streaming && !taskActive && posted == [] && sent == []
    {
      this.deviceId := deviceId;
      this.ring := ring;
      running, streaming, taskActive := false, false, false;
      posted, sent := [], [];
    }

    /** `afeDetected`: mark the session running, then start the stream task. */
    method AfeDetected()
      modifies this`running, this`taskActive
      ensures running && taskActive
    {
      running := true;
      taskActive := true;
    }

    /** `afeSpeech`: trim the backlog to the preroll, then let the task stream. */
    method AfeSpeech()
      requires Valid()
      modifies ring, this`streaming
      ensures Valid() && streaming
      ensures ring.State() == RingSpec.DropExceptLast(old(ring.State()), PrerollFrames)
      ensures ring.Contents() == RingSpec.Newest(PrerollFrames, old(ring.Contents()))
    {
      ring.DropExceptLast(PrerollFrames);
      streaming := true;
    }

    /** `afeSilence`: only clears `streaming_`. */
    method AfeSilence()
      modifies this`streaming
      ensures !streaming
    {
      streaming := false;
    }

    /**
     * `streamTask`: the protocol of `Streaming.StreamTask` over the frame
     * ring, then, on every exit path, the scope guard posts the deletion of
     * the task to the application, exactly once.
     */
    method StreamTask(connect: Streaming.Poll, start: Streaming.Poll,
                      seen: seq<bool>, arrivals: seq<seq<seq<Sample>>>)
      returns (end: Streaming.End)
      requires Valid() && |arrivals| == |seen| && Streaming.Fits(arrivals, ring.itemSize)
      modifies this`sent, this`posted, ring, ring.frames
      ensures Valid()
      ensures posted == old(posted) + [ResetStreamTask]
      ensures !end.LoopDone? ==> sent == old(sent) && ring.State() == old(ring.State())
      ensures end.LoopDone? ==>
                var p := Streaming.Passes(old(ring.State()), running, seen, arrivals);
                && end.stopped == p.stopped && ring.State() == p.ring
                && sent == old(sent) + Streaming.Transcript(deviceId, p, "stop", Encode)
      ensures end.LoopDone? <==> Decide(Narrow, connect.start, connect.probes, Streaming.ConnectTimeout).Satisfied?
                                 && Decide(Narrow, start.start, start.probes, Streaming.StreamingTimeout).Satisfied?
    {
      var msgs;
      msgs, end := Streaming.StreamTask(ring, deviceId, running, Narrow, connect, start, seen, arrivals, "stop", Encode);
      sent := sent + msgs;
      posted := posted + [ResetStreamTask];
    }

    /** The application runs the posted deletion: `streamTask_` no longer holds a task. */
    method RunPosted()
      requires posted != []
      modifies this`posted, this`taskActive
      ensures posted == old(posted[1..]) && !taskActive
    {
      posted := posted[1..];
      taskActive := false;
    }
  }

  /**
   * Every binary message carries exactly `2 * |frame|` bytes, and decoding
   * them as little-endian 16-bit samples gives back the popped frame.
   */
  lemma FramesOnTheWire(items: seq<seq<Sample>>)
    ensures var ms := Streaming.Binaries(items, Encode);
            forall i :: 0 <= i < |items| ==>
              ms[i].Binary? && |ms[i].data| == 2 * |items[i]| && |ms[i].data| % 2 == 0
              && Decode(ms[i].data) == items[i]
  {
    var ms := Streaming.Binaries(items, Encode);
    Streaming.BinariesEach(items, Encode);
    forall i | 0 <= i < |items|
      ensures ms[i].Binary? && |ms[i].data| == 2 * |items[i]| && |ms[i].data| % 2 == 0
              && Decode(ms[i].data) == items[i]
    {
      DecodeEncode(items[i]);
    }
  }
}
