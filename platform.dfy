/** The platform objects the decode-and-pace engine talks to, reduced to the
    state the engine can observe: the demuxer is a fixed list of tracks and the
    samples of the selected track with a read cursor, the decoder is the log of
    calls made on it, and the monotonic clock is the list of values that
    successive System.nanoTime() calls return, together with the sleeps
    requested between them. */
module Platform {

  datatype Option<T> = None | Some(value: T)

  /** MediaCodec.BUFFER_FLAG_CODEC_CONFIG */
  const BufferFlagCodecConfig: bv32 := 2
  /** MediaCodec.BUFFER_FLAG_END_OF_STREAM */
  const BufferFlagEndOfStream: bv32 := 4

  /** Java's `(flags & flag) != 0` */
  predicate HasFlag(flags: bv32, flag: bv32) {
    flags & flag != 0
  }

  /** The fields of a MediaFormat the engine reads. */
  datatype TrackFormat = TrackFormat(mime: string, width: int, height: int)

  /** One access unit of the selected track: what readSampleData returns
      for it (a negative size is a failed read), its time and its flags. */
  datatype Sample = Sample(size: int, timeUs: int, flags: bv32)

  /** MediaCodec.BufferInfo as the output callback sees it. */
  datatype BufferInfo = BufferInfo(presentationTimeUs: int, flags: bv32)

  /** One call made on the decoder. */
  datatype DecoderCall =
    | QueueInput(index: int, offset: int, size: int, timeUs: int, flags: bv32)
    | ReleaseOutput(index: int, render: bool)
    | Flush
    | Start

  /** The arguments of one Thread.sleep(millis, nanos) call. */
  datatype SleepRequest = SleepRequest(millis: int, nanos: int)

  /** Java's `nanos / 1000` on a long: division truncating toward zero. */
  function NanosToUsec(nanos: int): (usec: int)
    ensures nanos >= 0 ==> 0 <= nanos - usec * 1000 < 1000
    ensures nanos < 0 ==> -1000 < nanos - usec * 1000 <= 0
  {
    if nanos >= 0 then nanos / 1000 else -((-nanos) / 1000)
  }

  /** MediaExtractor after setDataSource and selectTrack. */
  class Extractor {
    const tracks: seq<TrackFormat>
    const samples: seq<Sample>
    var cursor: nat

    ghost predicate Valid()
      reads this
    {
      cursor <= |samples|
    }

    constructor (tracks: seq<TrackFormat>, samples: seq<Sample>)
      ensures this.tracks == tracks && this.samples == samples
      ensures cursor == 0 && Valid()
    {
      this.tracks := tracks;
      this.samples := samples;
      cursor := 0;
    }

    /** readSampleData: the size of the current sample, -1 past the end. */
    method ReadSampleData() returns (size: int)
      requires Valid()
      ensures cursor < |samples| ==> size == samples[cursor].size
      ensures cursor == |samples| ==> size == -1
    {
      size := if cursor < |samples| then samples[cursor].size else -1;
    }

    /** getSampleTime: the time of the current sample, -1 past the end. */
    method GetSampleTime() returns (timeUs: int)
      requires Valid()
      ensures cursor < |samples| ==> timeUs == samples[cursor].timeUs
      ensures cursor == |samples| ==> timeUs == -1
    {
      timeUs := if cursor < |samples| then samples[cursor].timeUs else -1;
    }

    /** getSampleFlags of the current sample. */
    method GetSampleFlags() returns (flags: bv32)
      requires cursor < |samples|
      ensures flags == samples[cursor].flags
    {
      flags := samples[cursor].flags;
    }

    /** advance: moves to the next sample; false once there is none. */
    method Advance() returns (more: bool)
      requires Valid()
      modifies this
      ensures Valid()
      ensures cursor == if old(cursor) < |samples| then old(cursor) + 1 else old(cursor)
      ensures more <==> cursor < |samples|
    {
      if cursor < |samples| {
        cursor := cursor + 1;
      }
      more := cursor < |samples|;
    }

    /** seekTo(0, SEEK_TO_CLOSEST_SYNC): the first sample is the sync
        point at or before time 0. */
    method SeekToStart()
      modifies this
      ensures cursor == 0 && Valid()
    {
      cursor := 0;
    }
  }

  /** MediaCodec, seen through the calls made on it. */
  class Decoder {
    var log: seq<DecoderCall>

    constructor ()
      ensures log == []
    {
      log := [];
    }

    method QueueInputBuffer(index: int, offset: int, size: int, timeUs: int, flags: bv32)
      modifies this
      ensures log == old(log) + [QueueInput(index, offset, size, timeUs, flags)]
    {
      log := log + [QueueInput(index, offset, size, timeUs, flags)];
    }

    method ReleaseOutputBuffer(index: int, render: bool)
      modifies this
      ensures log == old(log) + [ReleaseOutput(index, render)]
    {
      log := log + [ReleaseOutput(index, render)];
    }

    method FlushBuffers()
      modifies this
      ensures log == old(log) + [Flush]
    {
      log := log + [Flush];
    }

    method StartCodec()
      modifies this
      ensures log == old(log) + [Start]
    {
      log := log + [Start];
    }
  }

  /** System.nanoTime() and Thread.sleep: each nanoTime() call consumes the
      next reading; a sleep only records what was asked for. */
  class Clock {
    const readings: seq<int>
    var pos: nat
    var sleeps: seq<SleepRequest>

    ghost predicate Valid()
      reads this
    {
      pos <= |readings|
    }

    constructor (readings: seq<int>)
      ensures this.readings == readings && pos == 0 && sleeps == [] && Valid()
    {
      this.readings := readings;
      pos := 0;
      sleeps := [];
    }

    method NanoTime() returns (nanos: int)
      requires Valid() && pos < |readings|
      modifies this`pos
      ensures Valid() && pos == old(pos) + 1
      ensures nanos == readings[old(pos)]
    {
      nanos := readings[pos];
      pos := pos + 1;
    }

    method Sleep(millis: int, nanos: int)
      modifies this`sleeps
      ensures sleeps == old(sleeps) + [SleepRequest(millis, nanos)]
    {
      sleeps := sleeps + [SleepRequest(millis, nanos)];
    }
  }
}
