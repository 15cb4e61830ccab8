# MediaCodecLib decode-and-pace engine, in Dafny

MediaCodecLib's sample activity (`MainActivity`) plays an MP4 asset through
Android's asynchronous `MediaCodec` API. Most of the class is Android
lifecycle and UI. Its core is four small step-by-step procedures over the
activity's fields:

- **Track selection** (`initExtractor`). The first track whose MIME type
  starts with `video/avc` is recorded: its index, its format and its MIME.
  The frame size is then read from that format.
- **Sample feeder** (`onInputBufferAvailable`). It reads samples from the
  `MediaExtractor` until one reads with a non-negative size, queueing that
  sample on the offered input buffer. Whenever the extractor cannot
  advance, it also queues an empty end-of-stream buffer on the same index.
- **Frame pacer** (`waitToDisplay`). It keeps an anchor pair: a monotonic
  clock time and a presentation time. The first frame sets the anchor.
  Each later frame is held until the clock is within 100 µs of the anchor's
  clock time plus the frame's presentation-time step, clamped at 0. The
  wait sleeps in chunks of at most 500 000 µs. Then both halves of the
  anchor move by that step.
- **Output handler** (`onOutputBufferAvailable`). Codec-config buffers are
  released unrendered. Other buffers are paced and then rendered. On end of
  stream, the anchor is cleared, the extractor seeks back to the start, and
  the decoder is flushed and restarted, so playback loops.
  `onOutputFormatChanged` keeps the decoder's new output format.

The model is imperative, like the source. `DecodeEngine.Player` is a class
with the activity's fields (`mVideoFormat`, `mMimeType`, `mVideoTrackIndex`,
`mWidth`, `mHeight`, `mPrevMonoUsec`, `mPrevPresentUsec`). Its methods have
the source's loops and branches. They run over three platform objects from
module `Platform`:

- an `Extractor`: the track formats, the selected track's samples (size as
  `readSampleData` reports it, time, flags) and a read cursor;
- a `Decoder`: the log of calls made on it (queue input, release output
  with or without rendering, flush, start);
- a `Clock`: the sequence of values that successive `System.nanoTime()`
  calls return, with a cursor and the list of `Thread.sleep(millis, nanos)`
  requests made.

Each method is proved against a pure specification in its own module:

- `TrackSelection.FirstAvcTrack`;
- `SampleFeeder.FeedOnce`, built on `FirstReadable`;
- `FramePacer.Pace`, built on `Delta`, `DesiredUsec`, `Advance`,
  `SleepChunk`, `SleepSplit`, `FirstReady` and `WaitSleeps`.

The properties the code promises are proved about those functions. Lemmas
over runs of frames (`AdvanceAll`) show that the anchor follows the latest
presentation time and keeps its two halves a fixed distance apart. So, for
non-decreasing timestamps, frame due times are spaced exactly like the
timestamps.

Java details made explicit:

- `System.nanoTime() / 1000` on a `long` truncates toward zero
  (`Platform.NanosToUsec`).
- Flag tests are `(flags & FLAG) != 0` on 32-bit flag words.
- `BUFFER_FLAG_CODEC_CONFIG` is 2 and `BUFFER_FLAG_END_OF_STREAM` is 4.

Where the code and its intended behaviour part ways, the model follows the
code:

- **Two submissions per callback.** One feeder callback may queue two
  buffers on the same input index: a sample, then end of stream, when that
  sample was the last one.
- **No AVC track.** When no track is AVC, `mVideoFormat` stays `null` and
  line 92 throws a `NullPointerException` that nothing catches. The model
  reports this as `InitOutcome.NoVideoFormat` and leaves the recorded
  fields unchanged, so `mVideoTrackIndex` keeps its initial -1.
- **Unanchored test.** Only `mPrevMonoUsec == 0` marks "unanchored". A
  first clock reading that truncates to 0 µs leaves the pacer unanchored
  for the next frame too. `Pace` states this faithfully.

## Model

| member | source | states |
|---|---|---|
| DecodeEngine.Player.constructor | app/src/main/java/com/github/xch168/mediacodeclib/MainActivity.java:31-37 | the fields start with no format or MIME, track index -1, size 720x1280, and an unanchored pacer (both anchor halves 0) |
| TrackSelection.FirstAvcTrack | app/src/main/java/com/github/xch168/mediacodeclib/MainActivity.java:82-91 | the result is the lowest index at or after `from` whose MIME starts with "video/avc", with no earlier match; it is None exactly when no track from there on matches |
| DecodeEngine.Player.InitExtractor | app/src/main/java/com/github/xch168/mediacodeclib/MainActivity.java:81-93 | with an AVC track: index, format and MIME are those of the first AVC track (FirstAvcTrack), and width and height come from its format; with none, from a player with no format yet (as after the constructor): index, format, MIME and size keep their old values and the outcome is NoVideoFormat; the anchor is untouched |
| SampleFeeder.FirstReadable | app/src/main/java/com/github/xch168/mediacodeclib/MainActivity.java:121-137 | the first sample at or after the cursor with a non-negative read size, with every sample before it failing to read; None exactly when every remaining sample fails |
| SampleFeeder.FeedOnce | app/src/main/java/com/github/xch168/mediacodeclib/MainActivity.java:121-137 | one callback makes one or two submissions and never moves the cursor backwards or past the end. Every sample passed over before the last one examined failed to read. The queued sample (offset 0, its size, time and flags) is the last one examined, and only when it read. End of stream follows exactly when the cursor reached the end, that is when advance() failed. Without a sample the callback ends only because advance() failed |
| DecodeEngine.Player.OnInputBufferAvailable | app/src/main/java/com/github/xch168/mediacodeclib/MainActivity.java:117-138 | the retry loop leaves the cursor and appends to the decoder log exactly what FeedOnce says |
| Platform.NanosToUsec | app/src/main/java/com/github/xch168/mediacodeclib/MainActivity.java:182 | `nanos / 1000` on a long truncates toward zero: the remainder is below 1000 in magnitude and has the sign of `nanos` |
| FramePacer.Delta | app/src/main/java/com/github/xch168/mediacodeclib/MainActivity.java:186-189 | the frame step is never negative and takes the anchor's presentation time to max(anchor, pts) |
| FramePacer.DesiredUsec | app/src/main/java/com/github/xch168/mediacodeclib/MainActivity.java:191 | the due time is never before the anchor's clock time and lies ahead of it by max(anchor, pts) - anchor presentation time |
| FramePacer.Advance | app/src/main/java/com/github/xch168/mediacodeclib/MainActivity.java:207-208 | the new presentation anchor is max(old, pts), so it never decreases; the difference between the clock and presentation halves is unchanged; the new clock anchor is the frame's due time |
| FramePacer.SleepChunk | app/src/main/java/com/github/xch168/mediacodeclib/MainActivity.java:194-197 | one sleep is the time left to the due time, capped at 500000 µs: never more than either, and equal to one of them. It is more than 100 µs whenever the loop is still waiting |
| FramePacer.SleepSplit | app/src/main/java/com/github/xch168/mediacodeclib/MainActivity.java:198-200 | the (s/1000, (s%1000)*1000) pair passed to Thread.sleep gives back s as millis*1000 + nanos/1000, with nanos a whole number of microseconds in [0, 999000] |
| FramePacer.WaitSleeps | app/src/main/java/com/github/xch168/mediacodeclib/MainActivity.java:193-205 | one sleep per early clock reading, in order, each of more than 100 and at most 500000 µs, never past the due time as seen from its reading, with nanos in [0, 999000] |
| FramePacer.WaitSleepsExtend | app/src/main/java/com/github/xch168/mediacodeclib/MainActivity.java:193-205 | a sleep log extended in order by the sleep for each early reading is the old log followed by WaitSleeps |
| FramePacer.FirstReady | app/src/main/java/com/github/xch168/mediacodeclib/MainActivity.java:192-206 | the reading that ends the wait loop is the first at or after the clock's position that reaches the target; every reading before it is below the target |
| FramePacer.Pace | app/src/main/java/com/github/xch168/mediacodeclib/MainActivity.java:180-210 | unanchored: one clock reading, no sleep, anchor = (that reading in µs, pts). Anchored: released on the first reading at or after the due time less 100 µs, with every earlier reading short of it; one sleep per early reading, each in (100, 500000] µs and never past the due time as seen from that reading; the anchor's halves move by the same clamped step to the due time and max(old, pts) |
| DecodeEngine.Player.WaitUntilDue | app/src/main/java/com/github/xch168/mediacodeclib/MainActivity.java:192-206 | the wait loop stops right after the first reading that reaches the due time less 100 µs and requests exactly the sleeps WaitSleeps lists |
| DecodeEngine.Player.WaitToDisplay | app/src/main/java/com/github/xch168/mediacodeclib/MainActivity.java:180-210 | the anchor fields, the clock position and the sleeps requested become exactly what Pace gives for the old anchor and the frame's pts |
| DecodeEngine.Player.OnOutputBufferAvailable | app/src/main/java/com/github/xch168/mediacodeclib/MainActivity.java:141-158 | a codec-config buffer is released unrendered with the anchor, clock and extractor unchanged. Any other buffer is paced as Pace says and then released rendered. On end of stream the anchor becomes (0, 0), the extractor cursor 0, and the decoder gets flush then start; otherwise the anchor is Pace's and the cursor is unchanged |
| DecodeEngine.Player.OnOutputFormatChanged | app/src/main/java/com/github/xch168/mediacodeclib/MainActivity.java:166-168 | the kept format becomes the decoder's new output format |
| SampleFeeder.TwoSubmissionsOnLastSample | app/src/main/java/com/github/xch168/mediacodeclib/MainActivity.java:127-133 | a callback queues two buffers exactly when the sample it reads is the track's last |
| FramePacer.AdvanceAllFollowsLatest | app/src/main/java/com/github/xch168/mediacodeclib/MainActivity.java:186-208 | over any run of anchored frames, the presentation anchor is the largest of its start and every pts seen, the two halves keep their distance, and the clock anchor never moves back |
| FramePacer.MaxOfNonDecreasing | app/src/main/java/com/github/xch168/mediacodeclib/MainActivity.java:186-189 | for non-decreasing timestamps starting at or above the anchor, the largest seen is the last |
| FramePacer.DueTimeFollowsTimestamps | app/src/main/java/com/github/xch168/mediacodeclib/MainActivity.java:186-208 | for non-decreasing timestamps, the clock anchor after a run is the start anchor plus the last timestamp's distance from the start presentation time: due times are spaced like the timestamps |
| FramePacer.ThreeFrameSchedule | app/src/main/java/com/github/xch168/mediacodeclib/MainActivity.java:181-208 | with frames at 0, 33000 and 66000 µs and the first anchored at clock time t, Pace releases the second on a reading of at least t + 33000 - 100 µs and the third on one of at least t + 66000 - 100 µs, moving the anchor to (t + 33000, 33000) and then (t + 66000, 66000) |

## Left out

- Activity lifecycle and UI: `onCreate`, the surface-texture listener, the
  layout sizing posted to the UI thread, and `onDestroy`
  (MainActivity.java lines 39-71, 95-101, 212-219). They hold no decisions
  of the engine.
- Asset and file I/O: `openFd` and `setDataSource` (lines 79-80) and the
  `IOException` handlers. The extractor is given as its tracks and samples.
- Decoder set-up in `decode()`: `selectTrack`, `createDecoderByType`,
  setting the colour format, `configure` and `start` (lines 112-114,
  171-174). These are platform calls; the model starts from a selected
  track and a started decoder.
- `getInputBuffer` and the sample payload bytes (lines 119, 123). Only the
  size that `readSampleData` reports is modelled.
- `onError`'s `codec.reset()` (line 162), the callback threads, and
  concurrency between the input and output callbacks.
- Real time: the clock is a finite list of readings. Pacing a frame
  requires a later reading that reaches the due time less 100 µs. Without
  one, the source would keep waiting, which the model does not represent.
  `Thread.sleep` only records its arguments and does not move the clock.
  `InterruptedException` is not modelled.
- Java `long` overflow: all times are unbounded integers, so wrap-around
  of `mPrevMonoUsec + delta` and similar sums is not modelled.
- DecodeEngine.Player.OnOutputBufferAvailable: the order of the extractor
  seek relative to the decoder flush and start is not stated, because the
  two objects keep separate state. The order flush-then-start within the
  decoder is stated.
- The real `seekTo(0, SEEK_TO_CLOSEST_SYNC)` lands on the sync sample at
  or before time 0. The model takes that to be the first sample.
