/** Which track of the container the player decodes: the first one whose
    MIME type starts with "video/avc". */
module TrackSelection {
  import opened Platform

  const AvcMimePrefix: string := "video/avc"

  /** Java's String.startsWith */
  predicate StartsWith(s: string, prefix: string) {
    |prefix| <= |s| && s[..|prefix|] == prefix
  }

  predicate IsAvc(format: TrackFormat) {
    StartsWith(format.mime, AvcMimePrefix)
  }

  /** The lowest index at or after `from` of an AVC track, if any. */
  function FirstAvcTrack(tracks: seq<TrackFormat>, from: nat): (r: Option<nat>)
    requires from <= |tracks|
    ensures r.Some? ==> from <= r.value < |tracks| && IsAvc(tracks[r.value])
    ensures r.Some? ==> forall j :: from <= j < r.value ==> !IsAvc(tracks[j])
    ensures r.None? <==> forall j :: from <= j < |tracks| ==> !IsAvc(tracks[j])
    decreases |tracks| - from
  {
    if from == |tracks| then None
    else if IsAvc(tracks[from]) then Some(from)
    else FirstAvcTrack(tracks, from + 1)
  }
}
