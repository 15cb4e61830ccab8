/** The decode-and-pace part of MainActivity: the fields it keeps and the
    code that selects the video track and handles the decoder's input,
    output and format-change callbacks, over the platform models. */
module DecodeEngine {
  import opened Platform
  import opened TrackSelection
  import opened SampleFeeder
  import opened FramePacer

  /** How initExtractor ends once the track loop is done. */
  datatype InitOutcome =
    | Ready
    /** mVideoFormat is still null: reading its width throws. */
    | NoVideoFormat

  class Player {
    const extractor: Extractor
    const decoder: Decoder
    const clock: Clock

    var videoFormat: Option<TrackFormat>
    var mimeType: Option<string>
    var videoTrackIndex: int
    var width: int
    var height: int
    var prevMonoUsec: int
    var prevPresentUsec: int

    ghost predicate Valid()
      reads extractor, clock
    {
      extractor.Valid() && clock.Valid()
    }

    function PacingAnchor(): Anchor
      reads this
    {
      Anchor(prevMonoUsec, prevPresentUsec)
    }

    /** The field initialisers of MainActivity. */
    constructor (extractor: Extractor, decoder: Decoder, clock: Clock)
      requires extractor.Valid() && clock.Valid()
      ensures this.extractor == extractor && this.decoder == decoder && this.clock == clock
      ensures videoFormat == None && mimeType == None && videoTrackIndex == -1
      ensures width == 720 && height == 1280
      ensures prevMonoUsec == 0 && prevPresentUsec == 0
      ensures Valid()
    {
      this.extractor := extractor;
      this.decoder := decoder;
      this.clock := clock;
      videoFormat := None;
      mimeType := None;
      videoTrackIndex := -1;
      width := 720;
      height := 1280;
      prevMonoUsec := 0;
      prevPresentUsec := 0;
    }

    /** The track loop of initExtractor and the size read after it. */
    method InitExtractor() returns (outcome: InitOutcome)
      modifies this
      ensures prevMonoUsec == old(prevMonoUsec) && prevPresentUsec == old(prevPresentUsec)
      ensures match FirstAvcTrack(extractor.tracks, 0)
              case Some(i) =>
                videoTrackIndex == i && videoFormat == Some(extractor.tracks[i])
                && mimeType == Some(extractor.tracks[i].mime)
              case None =>
                videoTrackIndex == old(videoTrackIndex) && videoFormat == old(videoFormat)
                && mimeType == old(mimeType)
      ensures outcome == Ready <==> videoFormat.Some?
      ensures videoFormat.Some? ==> width == videoFormat.value.width && height == videoFormat.value.height
      ensures videoFormat.None? ==> width == old(width) && height == old(height)
    {
      var trackCount := |extractor.tracks|;
      for i := 0 to trackCount
        invariant forall j :: 0 <= j < i ==> !IsAvc(extractor.tracks[j])
        invariant videoTrackIndex == old(videoTrackIndex) && videoFormat == old(videoFormat)
        invariant mimeType == old(mimeType)
        invariant width == old(width) && height == old(height)
        invariant prevMonoUsec == old(prevMonoUsec) && prevPresentUsec == old(prevPresentUsec)
      {
        var format := extractor.tracks[i];
        var mime := format.mime;
        if StartsWith(mime, AvcMimePrefix) {
          videoFormat := Some(format);
          videoTrackIndex := i;
          mimeType := Some(mime);
          assert FirstAvcTrack(extractor.tracks, 0) == Some(i);
          break;
        }
      }
      match videoFormat
      case None =>
        outcome := NoVideoFormat;
      case Some(format) =>
        width := format.width;
        height := format.height;
        outcome := Ready;
    }

    /** onInputBufferAvailable: fill input buffer `index` from the extractor. */
    method OnInputBufferAvailable(index: int)
      requires Valid()
      modifies extractor, decoder
      ensures Valid()
      ensures var f := FeedOnce(extractor.samples, old(extractor.cursor), index);
              extractor.cursor == f.cursor && decoder.log == old(decoder.log) + f.calls
    {
      ghost var start := extractor.cursor;
      var videoExtractorDone := false;
      while !videoExtractorDone
        invariant Valid()
        invariant start <= extractor.cursor
        invariant forall j :: start <= j < extractor.cursor ==> extractor.samples[j].size < 0
        invariant !videoExtractorDone ==> decoder.log == old(decoder.log)
        invariant videoExtractorDone ==>
                    extractor.cursor == |extractor.samples| &&
                    decoder.log == old(decoder.log) + [EndOfStreamSubmission(index)]
        decreases |extractor.samples| - extractor.cursor + (if videoExtractorDone then 0 else 1)
      {
        var size := extractor.ReadSampleData();
        var presentationTime := extractor.GetSampleTime();
        if size >= 0 {
          var flags := extractor.GetSampleFlags();
          decoder.QueueInputBuffer(index, 0, size, presentationTime, flags);
        }
        var advanced := extractor.Advance();
        videoExtractorDone := !advanced;
        if videoExtractorDone {
          decoder.QueueInputBuffer(index, 0, 0, 0, BufferFlagEndOfStream);
        }
        if size >= 0 {
          assert FirstReadable(extractor.samples, start) == Some(extractor.cursor - 1);
          break;
        }
      }
    }

    /** The clock can serve the pacing of a frame with time `pts`. */
    ghost predicate CanPace(pts: int)
      reads this, clock
    {
      ClockReady(PacingAnchor(), pts, clock.readings, clock.pos)
    }

    /** The wait loop of waitToDisplay: read the clock, and while it is short
        of `desiredUsec` less the tolerance, sleep for the rest of the time,
        at most MaxSleepUsec, and read it again. */
    method WaitUntilDue(desiredUsec: int)
      requires clock.Valid() && Reaches(clock.readings, clock.pos, desiredUsec - ToleranceUsec)
      modifies clock
      ensures clock.Valid()
      ensures clock.pos == FirstReady(clock.readings, old(clock.pos), desiredUsec - ToleranceUsec) + 1
      ensures clock.sleeps == old(clock.sleeps) + WaitSleeps(clock.readings, old(clock.pos), clock.pos - 1, desiredUsec)
    {
      ghost var start, sleeps0 := clock.pos, clock.sleeps;
      ghost var k := FirstReady(clock.readings, start, desiredUsec - ToleranceUsec);
      var nanos := clock.NanoTime();
      var nowUsec := NanosToUsec(nanos);
      while nowUsec < desiredUsec - ToleranceUsec
        invariant clock.Valid()
        invariant start < clock.pos <= k + 1
        invariant nowUsec == NanosToUsec(clock.readings[clock.pos - 1])
        invariant |clock.sleeps| == |sleeps0| + (clock.pos - 1 - start)
        invariant forall i :: 0 <= i < |sleeps0| ==> clock.sleeps[i] == sleeps0[i]
        invariant forall j :: start <= j < clock.pos - 1 ==>
                    clock.sleeps[|sleeps0| + (j - start)] == SleepAfter(clock.readings, j, desiredUsec)
        decreases k + 1 - clock.pos
      {
        var sleepTimeUsec := desiredUsec - nowUsec;
        if sleepTimeUsec > MaxSleepUsec {
          sleepTimeUsec := MaxSleepUsec;
        }
        if sleepTimeUsec > 0 {
          clock.Sleep(sleepTimeUsec / 1000, (sleepTimeUsec % 1000) * 1000);
        }
        nanos := clock.NanoTime();
        nowUsec := NanosToUsec(nanos);
      }
      WaitSleepsExtend(sleeps0, clock.sleeps, clock.readings, start, clock.pos - 1, desiredUsec);
    }

    /** waitToDisplay: anchor on the first frame, otherwise wait for the
        frame's due time and move the anchor. */
    method WaitToDisplay(info: BufferInfo)
      requires Valid() && CanPace(info.presentationTimeUs)
      modifies this`prevMonoUsec, this`prevPresentUsec, clock
      ensures Valid()
      ensures var p := Pace(old(PacingAnchor()), info.presentationTimeUs, clock.readings, old(clock.pos));
              PacingAnchor() == p.anchor && clock.pos == p.clockPos
              && clock.sleeps == old(clock.sleeps) + p.sleeps
    {
      if prevMonoUsec == 0 {
        var nanos := clock.NanoTime();
        prevMonoUsec := NanosToUsec(nanos);
        prevPresentUsec := info.presentationTimeUs;
      } else {
        ghost var a := PacingAnchor();
        ghost var start := clock.pos;
        var delta := info.presentationTimeUs - prevPresentUsec;
        if delta < 0 {
          delta := 0;
        }
        assert delta == Delta(a.presentUsec, info.presentationTimeUs);
        var desiredUsec := prevMonoUsec + delta;
        WaitUntilDue(desiredUsec);
        prevMonoUsec := prevMonoUsec + delta;
        prevPresentUsec := prevPresentUsec + delta;
        assert PacingAnchor() == Advance(a, info.presentationTimeUs);
        assert Pace(a, info.presentationTimeUs, clock.readings, start)
               == Pacing(PacingAnchor(), clock.pos, WaitSleeps(clock.readings, start, clock.pos - 1, desiredUsec));
      }
    }

    /** onOutputBufferAvailable: drop codec config, pace and render frames,
        and loop back to the start on end of stream. */
    method OnOutputBufferAvailable(index: int, info: BufferInfo)
      requires Valid()
      requires !HasFlag(info.flags, BufferFlagCodecConfig) ==> CanPace(info.presentationTimeUs)
      modifies this`prevMonoUsec, this`prevPresentUsec, extractor, decoder, clock
      ensures Valid()
      ensures HasFlag(info.flags, BufferFlagCodecConfig) ==>
                decoder.log == old(decoder.log) + [ReleaseOutput(index, false)]
                && PacingAnchor() == old(PacingAnchor())
                && clock.pos == old(clock.pos) && clock.sleeps == old(clock.sleeps)
                && extractor.cursor == old(extractor.cursor)
      ensures !HasFlag(info.flags, BufferFlagCodecConfig) ==>
                var p := Pace(old(PacingAnchor()), info.presentationTimeUs, clock.readings, old(clock.pos));
                clock.pos == p.clockPos && clock.sleeps == old(clock.sleeps) + p.sleeps
                && if HasFlag(info.flags, BufferFlagEndOfStream) then
                     decoder.log == old(decoder.log) + [ReleaseOutput(index, true), Flush, Start]
                     && PacingAnchor() == Anchor(0, 0) && extractor.cursor == 0
                   else
                     decoder.log == old(decoder.log) + [ReleaseOutput(index, true)]
                     && PacingAnchor() == p.anchor && extractor.cursor == old(extractor.cursor)
    {
      if HasFlag(info.flags, BufferFlagCodecConfig) {
        decoder.ReleaseOutputBuffer(index, false);
        return;
      }
      WaitToDisplay(info);
      decoder.ReleaseOutputBuffer(index, true);
      var reset := HasFlag(info.flags, BufferFlagEndOfStream);
      if reset {
        prevMonoUsec := 0;
        prevPresentUsec := 0;
        extractor.SeekToStart();
        decoder.FlushBuffers();
        decoder.StartCodec();
      }
    }

    /** onOutputFormatChanged: keep the decoder's new output format. */
    method OnOutputFormatChanged(format: TrackFormat)
      modifies this`videoFormat
      ensures videoFormat == Some(format)
    {
      videoFormat := Some(format);
    }
  }
}
