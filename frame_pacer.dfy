/** When a decoded frame may be released: the pacer keeps an anchor pair
    (a clock time and a presentation time), anchors on the first frame, and
    afterwards waits until the clock is within the tolerance of the anchor's
    clock time plus the frame's presentation-time step, sleeping in bounded
    chunks, before moving both halves of the anchor by that step. */
module FramePacer {
  import opened Platform

  const MaxSleepUsec := 500000
  const ToleranceUsec := 100

  /** mPrevMonoUsec and mPrevPresentUsec; a clock half of 0 means "not
      anchored". */
  datatype Anchor = Anchor(monoUsec: int, presentUsec: int)

  /** The result of pacing one frame: the new anchor, how many clock
      readings have been consumed, and the sleeps requested. */
  datatype Pacing = Pacing(anchor: Anchor, clockPos: nat, sleeps: seq<SleepRequest>)

  function Max(a: int, b: int): int {
    if a < b then b else a
  }

  /** The presentation-time step from the anchor to `pts`, clamped at 0. */
  function Delta(prevPresentUsec: int, pts: int): (d: int)
    ensures d >= 0
    ensures prevPresentUsec + d == Max(prevPresentUsec, pts)
  {
    var d := pts - prevPresentUsec;
    if d < 0 then 0 else d
  }

  /** The clock time at which the frame is due. */
  function DesiredUsec(a: Anchor, pts: int): (t: int)
    ensures t >= a.monoUsec
    ensures t - a.monoUsec == Max(a.presentUsec, pts) - a.presentUsec
  {
    a.monoUsec + Delta(a.presentUsec, pts)
  }

  /** The anchor after an anchored frame: both halves move by the same step. */
  function Advance(a: Anchor, pts: int): (r: Anchor)
    ensures r.presentUsec == Max(a.presentUsec, pts)
    ensures r.monoUsec - r.presentUsec == a.monoUsec - a.presentUsec
    ensures r.monoUsec == DesiredUsec(a, pts)
  {
    var delta := Delta(a.presentUsec, pts);
    Anchor(a.monoUsec + delta, a.presentUsec + delta)
  }

  /** How long one round of the wait loop sleeps, in microseconds. */
  function SleepChunk(desiredUsec: int, nowUsec: int): (s: int)
    ensures s <= MaxSleepUsec && s <= desiredUsec - nowUsec
    ensures s == MaxSleepUsec || s == desiredUsec - nowUsec
    ensures nowUsec < desiredUsec - ToleranceUsec ==> ToleranceUsec < s
  {
    var s := desiredUsec - nowUsec;
    if s > MaxSleepUsec then MaxSleepUsec else s
  }

  /** The microseconds a sleep request stands for. */
  function SleepUsec(r: SleepRequest): int {
    r.millis * 1000 + r.nanos / 1000
  }

  /** A positive microsecond count as the (millis, nanos) pair given to
      Thread.sleep. */
  function SleepSplit(s: int): (r: SleepRequest)
    requires s > 0
    ensures SleepUsec(r) == s
    ensures 0 <= r.nanos <= 999000 && r.nanos % 1000 == 0
  {
    SleepRequest(s / 1000, (s % 1000) * 1000)
  }

  /** The sleep the wait loop requests after reading readings[j], while
      that reading is short of the due time less the tolerance. */
  function SleepAfter(readings: seq<int>, j: nat, desiredUsec: int): SleepRequest
    requires j < |readings| && NanosToUsec(readings[j]) < desiredUsec - ToleranceUsec
  {
    SleepSplit(SleepChunk(desiredUsec, NanosToUsec(readings[j])))
  }

  /** The sleeps the wait loop requests after the readings at indices
      lo .. hi-1, all of them short of the due time less the tolerance:
      one per reading, each of more than the tolerance and at most
      MaxSleepUsec, split into whole milliseconds and a nanosecond remainder
      below one millisecond. */
  function WaitSleeps(readings: seq<int>, lo: nat, hi: nat, desiredUsec: int): (r: seq<SleepRequest>)
    requires lo <= hi <= |readings|
    requires forall j :: lo <= j < hi ==> NanosToUsec(readings[j]) < desiredUsec - ToleranceUsec
    ensures |r| == hi - lo
    ensures forall i :: 0 <= i < |r| ==> r[i] == SleepAfter(readings, lo + i, desiredUsec)
    ensures forall i :: 0 <= i < |r| ==>
              (ToleranceUsec < SleepUsec(r[i]) <= MaxSleepUsec && 0 <= r[i].nanos <= 999000)
    // no sleep goes past the due time as seen from the reading before it
    ensures forall i :: 0 <= i < |r| ==> SleepUsec(r[i]) <= desiredUsec - NanosToUsec(readings[lo + i])
  {
    seq(hi - lo, i requires 0 <= i < hi - lo => SleepAfter(readings, lo + i, desiredUsec))
  }

  /** A log that extends `before` with the sleep for each reading in
      lo .. hi-1, in order, is `before` followed by WaitSleeps. */
  lemma WaitSleepsExtend(before: seq<SleepRequest>, after: seq<SleepRequest>,
                         readings: seq<int>, lo: nat, hi: nat, desiredUsec: int)
    requires lo <= hi <= |readings|
    requires forall j :: lo <= j < hi ==> NanosToUsec(readings[j]) < desiredUsec - ToleranceUsec
    requires |after| == |before| + (hi - lo)
    requires forall i :: 0 <= i < |before| ==> after[i] == before[i]
    requires forall j :: lo <= j < hi ==> after[|before| + (j - lo)] == SleepAfter(readings, j, desiredUsec)
    ensures after == before + WaitSleeps(readings, lo, hi, desiredUsec)
  {
  }

  /** Some reading at or after `from` reaches `targetUsec`. */
  predicate Reaches(readings: seq<int>, from: nat, targetUsec: int) {
    exists k :: from <= k < |readings| && NanosToUsec(readings[k]) >= targetUsec
  }

  /** The first reading at or after `from` that reaches `targetUsec`: the
      one that ends the wait loop. */
  function FirstReady(readings: seq<int>, from: nat, targetUsec: int): (k: nat)
    requires Reaches(readings, from, targetUsec)
    ensures from <= k < |readings| && NanosToUsec(readings[k]) >= targetUsec
    ensures forall j :: from <= j < k ==> NanosToUsec(readings[j]) < targetUsec
    decreases |readings| - from
  {
    if NanosToUsec(readings[from]) >= targetUsec then from
    else FirstReady(readings, from + 1, targetUsec)
  }

  /** The clock has the readings pacing a frame consumes: one for an
      unanchored pacer, else one that reaches the due time less the
      tolerance. */
  predicate ClockReady(a: Anchor, pts: int, readings: seq<int>, pos: nat) {
    if a.monoUsec == 0 then pos < |readings|
    else Reaches(readings, pos, DesiredUsec(a, pts) - ToleranceUsec)
  }

  /** Pacing a frame with presentation time `pts`, the clock's next reading
      being readings[pos]. */
  function Pace(a: Anchor, pts: int, readings: seq<int>, pos: nat): (p: Pacing)
    requires ClockReady(a, pts, readings, pos)
    ensures pos < p.clockPos <= |readings|
    // the first frame is anchored at once, without sleeping
    ensures a.monoUsec == 0 ==>
              p.clockPos == pos + 1 && p.sleeps == [] &&
              p.anchor == Anchor(NanosToUsec(readings[pos]), pts)
    // later frames: released no earlier than the tolerance before the due time,
    // on the first reading that gets there, after one bounded sleep per early reading
    ensures a.monoUsec != 0 ==>
              NanosToUsec(readings[p.clockPos - 1]) >= DesiredUsec(a, pts) - ToleranceUsec &&
              (forall j :: pos <= j < p.clockPos - 1 ==>
                 NanosToUsec(readings[j]) < DesiredUsec(a, pts) - ToleranceUsec) &&
              |p.sleeps| == p.clockPos - 1 - pos &&
              (forall i :: 0 <= i < |p.sleeps| ==>
                 (ToleranceUsec < SleepUsec(p.sleeps[i]) <= MaxSleepUsec && 0 <= p.sleeps[i].nanos <= 999000)) &&
              (forall i :: 0 <= i < |p.sleeps| ==>
                 SleepUsec(p.sleeps[i]) <= DesiredUsec(a, pts) - NanosToUsec(readings[pos + i]))
    // ... and the anchor's halves move together up to the latest presentation time
    ensures a.monoUsec != 0 ==>
              p.anchor.presentUsec == Max(a.presentUsec, pts) &&
              p.anchor.monoUsec - p.anchor.presentUsec == a.monoUsec - a.presentUsec &&
              p.anchor.monoUsec == DesiredUsec(a, pts)
  {
    if a.monoUsec == 0 then
      Pacing(Anchor(NanosToUsec(readings[pos]), pts), pos + 1, [])
    else
      var desiredUsec := DesiredUsec(a, pts);
      var k := FirstReady(readings, pos, desiredUsec - ToleranceUsec);
      Pacing(Advance(a, pts), k + 1, WaitSleeps(readings, pos, k, desiredUsec))
  }

  /** The largest of `m` and the elements of `ps`. */
  function MaxOf(m: int, ps: seq<int>): int
    decreases |ps|
  {
    if ps == [] then m else MaxOf(Max(m, ps[0]), ps[1..])
  }

  /** The anchor after a run of anchored frames with presentation times `ps`. */
  function AdvanceAll(a: Anchor, ps: seq<int>): Anchor
    decreases |ps|
  {
    if ps == [] then a else AdvanceAll(Advance(a, ps[0]), ps[1..])
  }

  /** Over any run of anchored frames the anchor follows the latest
      presentation time seen, never moves back, and the two halves keep
      their distance, so waits do not accumulate drift. */
  lemma {:induction false} AdvanceAllFollowsLatest(a: Anchor, ps: seq<int>)
    ensures AdvanceAll(a, ps).presentUsec == MaxOf(a.presentUsec, ps)
    ensures AdvanceAll(a, ps).monoUsec - AdvanceAll(a, ps).presentUsec == a.monoUsec - a.presentUsec
    ensures AdvanceAll(a, ps).monoUsec >= a.monoUsec
    decreases |ps|
  {
    if ps != [] {
      AdvanceAllFollowsLatest(Advance(a, ps[0]), ps[1..]);
    }
  }

  predicate NonDecreasing(ps: seq<int>) {
    forall i, j :: 0 <= i < j < |ps| ==> ps[i] <= ps[j]
  }

  lemma {:induction false} MaxOfNonDecreasing(m: int, ps: seq<int>)
    requires ps != [] && NonDecreasing(ps) && m <= ps[0]
    ensures MaxOf(m, ps) == ps[|ps| - 1]
    decreases |ps|
  {
    if |ps| > 1 {
      MaxOfNonDecreasing(ps[0], ps[1..]);
    }
  }

  /** With presentation times that do not decrease from the anchor on, the
      frame with presentation time p is due at the anchor's clock time plus
      (p - anchor presentation time): frame spacing follows timestamp spacing. */
  lemma {:induction false} DueTimeFollowsTimestamps(a: Anchor, ps: seq<int>)
    requires ps != [] && NonDecreasing(ps) && a.presentUsec <= ps[0]
    ensures AdvanceAll(a, ps).monoUsec == a.monoUsec + (ps[|ps| - 1] - a.presentUsec)
  {
    AdvanceAllFollowsLatest(a, ps);
    MaxOfNonDecreasing(a.presentUsec, ps);
  }

  /** Three frames at 0, 33000 and 66000 us, the first one anchored at clock
      time t: the second is released on a reading of at least t + 33000 less
      the tolerance, and, if the clock gets there, the third on one of at
      least t + 66000 less the tolerance. */
  lemma ThreeFrameSchedule(t: int, readings: seq<int>, pos: nat)
    requires t != 0 && t + 33000 != 0
    requires ClockReady(Anchor(t, 0), 33000, readings, pos)
    ensures var p1 := Pace(Anchor(t, 0), 33000, readings, pos);
            NanosToUsec(readings[p1.clockPos - 1]) >= t + 33000 - ToleranceUsec
            && p1.anchor == Anchor(t + 33000, 33000)
            && (ClockReady(p1.anchor, 66000, readings, p1.clockPos) ==>
                  var p2 := Pace(p1.anchor, 66000, readings, p1.clockPos);
                  NanosToUsec(readings[p2.clockPos - 1]) >= t + 66000 - ToleranceUsec
                  && p2.anchor == Anchor(t + 66000, 66000))
  {
  }
}
