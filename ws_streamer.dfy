/**
 * The streaming component of main/WsStreamer.cpp: it listens to the AFE
 * session's detect/start/silence events, trims the session's byte ring to a
 * two-frame preroll when speech starts, and runs the stream task of the
 * `Streaming` module with the closing message {"type":"end"}.
 *
 * `running_` starts false and nothing in the file sets it, so the task's
 * loop never runs: a stream task that gets through both waits sends the
 * start message and nothing else. Its `waitUntil` subtracts `millis()`
 * readings widened to 64 bits (`Wait.Wide`).
 */
module WsStreamer {
  import opened Pcm
  import RingSpec
  import AudioBuffer
  import Streaming
  import opened Wait

  const PrerollFrames: nat := 2

  /** A frame of the byte ring goes out as its own bytes. */
  function Raw(item: seq<Byte>): (b: seq<Byte>)
    ensures b == item
  {
    item
  }

  /** A closure posted to the application context's dispatch queue. */
  datatype Posted = ResetStreamTask

  class Streamer {
    const deviceId: string
    const ring: AudioBuffer.Ring<Byte>
    var running: bool
    var streaming: bool
    /** `streamTask_` holds a task. */
    var taskActive: bool
    /** The context's dispatch queue, as far as this component posts to it. */
    var posted: seq<Posted>
    /** Every message handed to a WebSocket, in order. */
    var sent: seq<Streaming.Message>

    ghost predicate Valid()
      reads this, ring, ring.frames
    {
      ring.Valid() && !running
    }

    constructor (deviceId: string, ring: AudioBuffer.Ring<Byte>)
      requires ring.Valid()
      ensures Valid() && this.ring == ring && this.deviceId == deviceId
      ensures !streaming && !taskActive && posted == [] && sent == []
    {
      this.deviceId := deviceId;
      this.ring := ring;
      running, streaming, taskActive := false, false, false;
      posted, sent := [], [];
    }

    /** `afeDetected`: start the stream task. */
    method AfeDetected()
      modifies this`taskActive
      ensures taskActive
    {
      taskActive := true;
    }

    /** `afeStarted`: trim the backlog to the preroll, then let the task stream. */
    method AfeStarted()
      requires Valid()
      modifies ring, this`streaming
      ensures Valid() && streaming
      ensures ring.State() == RingSpec.DropExceptLast(old(ring.State()), PrerollFrames)
      ensures ring.Contents() == RingSpec.Newest(PrerollFrames, old(ring.Contents()))
    {
      ring.DropExceptLast(PrerollFrames);
      streaming := true;
    }

    /** `afeSilenced`: only clears `streaming_`. */
    method AfeSilenced()
      modifies this`streaming
      ensures !streaming
    {
      streaming := false;
    }

    /**
     * `streamTask`: the protocol of `Streaming.StreamTask` over the byte
     * ring, followed on every exit path by posting the reset of
     * `streamTask_` to the context, exactly once.
     * Its waits subtract the 64-bit `millis()` readings (`Wide`), so a
     * wait whose clock wraps gives up at the first reading after the wrap.
     */
    method StreamTask(connect: Streaming.Poll, start: Streaming.Poll,
                      seen: seq<bool>, arrivals: seq<seq<seq<Byte>>>)
      returns (end: Streaming.End)
      requires Valid() && |arrivals| == |seen| && Streaming.Fits(arrivals, ring.itemSize)
      modifies this`sent, this`posted, ring, ring.frames
      ensures Valid()
      ensures posted == old(posted) + [ResetStreamTask]
      ensures ring.State() == old(ring.State())
      ensures end.LoopDone? ==> end == Streaming.LoopDone(false)
                                && sent == old(sent) + [Streaming.StartMessage(deviceId)]
      ensures !end.LoopDone? ==> sent == old(sent)
      ensures end.LoopDone? <==> Decide(Wide, connect.start, connect.probes, Streaming.ConnectTimeout).Satisfied?
                                 && Decide(Wide, start.start, start.probes, Streaming.StreamingTimeout).Satisfied?
    {
      var msgs;
      msgs, end := Streaming.StreamTask(ring, deviceId, running, Wide, connect, start, seen, arrivals, "end", Raw);
      sent := sent + msgs;
      posted := posted + [ResetStreamTask];
    }

    /** The context runs the posted reset: `streamTask_` no longer holds a task. */
    method RunPosted()
      requires posted != []
      modifies this`posted, this`taskActive
      ensures posted == old(posted[1..]) && !taskActive
    {
      posted := posted[1..];
      taskActive := false;
    }
  }
}
