/** What one input-buffer callback submits to the decoder: it reads samples
    until one can be read or the extractor cannot advance, queues the sample
    it read, and queues an empty end-of-stream buffer when advancing fails,
    possibly on the same buffer index right after the sample. */
module SampleFeeder {
  import opened Platform

  /** The outcome of one callback: the submissions, in order, and where the
      extractor's cursor is left. */
  datatype Feed = Feed(calls: seq<DecoderCall>, cursor: nat)

  function SampleSubmission(index: int, s: Sample): DecoderCall {
    QueueInput(index, 0, s.size, s.timeUs, s.flags)
  }

  function EndOfStreamSubmission(index: int): DecoderCall {
    QueueInput(index, 0, 0, 0, BufferFlagEndOfStream)
  }

  /** The first sample at or after `from` that can be read, if any. */
  function FirstReadable(samples: seq<Sample>, from: nat): (r: Option<nat>)
    requires from <= |samples|
    ensures r.Some? ==> from <= r.value < |samples| && samples[r.value].size >= 0
    ensures r.Some? ==> forall j :: from <= j < r.value ==> samples[j].size < 0
    ensures r.None? <==> forall j :: from <= j < |samples| ==> samples[j].size < 0
    decreases |samples| - from
  {
    if from == |samples| then None
    else if samples[from].size >= 0 then Some(from)
    else FirstReadable(samples, from + 1)
  }

  /** One input-buffer callback on buffer `index` with the cursor at `cursor`. */
  function FeedOnce(samples: seq<Sample>, cursor: nat, index: int): (f: Feed)
    requires cursor <= |samples|
    ensures cursor <= f.cursor <= |samples|
    ensures 1 <= |f.calls| <= 2
    // every sample passed over before the last one examined failed to read
    ensures forall j :: cursor <= j < f.cursor - 1 ==> samples[j].size < 0
    ensures var took := cursor < f.cursor && samples[f.cursor - 1].size >= 0;
            // without a sample the loop only ends because advancing failed
            (!took ==> f.cursor == |samples|) &&
            f.calls == (if took then [SampleSubmission(index, samples[f.cursor - 1])] else [])
                       + (if f.cursor == |samples| then [EndOfStreamSubmission(index)] else [])
  {
    match FirstReadable(samples, cursor)
    case None => Feed([EndOfStreamSubmission(index)], |samples|)
    case Some(j) =>
      Feed([SampleSubmission(index, samples[j])]
           + (if j + 1 == |samples| then [EndOfStreamSubmission(index)] else []),
           j + 1)
  }

  /** Two submissions happen exactly when the sample read is the track's last. */
  lemma TwoSubmissionsOnLastSample(samples: seq<Sample>, cursor: nat, index: int)
    requires cursor <= |samples|
    ensures |FeedOnce(samples, cursor, index).calls| == 2
            <==> FirstReadable(samples, cursor) == Some(|samples| - 1)
  {
  }
}
