/**
 * `Inferencer` in birds.py: the detection gate. The object detector is an
 * input here (the labels it reported for a frame); what is modelled is how the
 * gate turns labels into `(found, delta)`, how it moves `last_detection_time`,
 * and the `delta > 30` test that decides whether a photo is sent.
 */
module Inferencer {
  import opened Wrappers

  const BirdLabel: string := "bird"

  /** A photo is sent only when more than this many seconds passed since the last detection. */
  const NotifyAfter: int := 30

  /** What `check_for_bird` returns: `(found, delta)`, `delta` being `None` when nothing was found. */
  datatype Detection = Detection(found: bool, delta: Option<int>)

  /** The gate's state after a check, with what the check returned. */
  datatype Checked = Checked(detection: Detection, lastDetectionTime: int)

  /**
   * `check_for_bird` as a function of the previous detection time, the labels
   * and the two clock reads it makes (`now1` for the delta, `now2` for the new
   * detection time).
   */
  function Check(last: int, labels: seq<string>, now1: int, now2: int): (r: Checked)
    ensures r.detection.found <==> BirdLabel in labels
    ensures r.detection.found ==> r.detection.delta == Some(now1 - last) && r.lastDetectionTime == now2
    ensures !r.detection.found ==> r.detection.delta == None && r.lastDetectionTime == last
  {
    if BirdLabel in labels then Checked(Detection(true, Some(now1 - last)), now2)
    else Checked(Detection(false, None), last)
  }

  /** `bird_found and detection_delta > 30`. */
  predicate ShouldNotify(d: Detection) {
    d.found && d.delta.Some? && d.delta.value > NotifyAfter
  }

  class Inferencer {
    var lastDetectionTime: int

    /** The detection clock starts at construction time, so no photo goes out in the first 30 seconds. */
    constructor (now: int)
      ensures lastDetectionTime == now
    {
      lastDetectionTime := now;
    }

    /**
     * `check_for_bird`: scans the labels and stops at the first "bird". Every
     * detection moves the detection time, whether or not it leads to a photo.
     */
    method CheckForBird(labels: seq<string>, now1: int, now2: int) returns (d: Detection)
      modifies this
      ensures d.found <==> BirdLabel in labels
      ensures d.found ==> d.delta == Some(now1 - old(lastDetectionTime)) && lastDetectionTime == now2
      ensures !d.found ==> d.delta == None && lastDetectionTime == old(lastDetectionTime)
      ensures Checked(d, lastDetectionTime) == Check(old(lastDetectionTime), labels, now1, now2)
    {
      var i := 0;
      while i < |labels|
        invariant 0 <= i <= |labels|
        invariant BirdLabel !in labels[..i]
        invariant lastDetectionTime == old(lastDetectionTime)
      {
        if labels[i] == BirdLabel {
          var delta := now1 - lastDetectionTime;
          lastDetectionTime := now2;
          return Detection(true, Some(delta));
        }
        i := i + 1;
      }
      assert labels[..i] == labels;
      d := Detection(false, None);
    }
  }

  // ---------------------------------------------------------------------------
  // Lemmas about the gate
  // ---------------------------------------------------------------------------

  /**
   * With the clock read in order (`last <= now1 <= now2`), the detection time
   * never moves back, and a reported delta is never negative.
   */
  lemma DetectionTimeMonotone(last: int, labels: seq<string>, now1: int, now2: int)
    requires last <= now1 <= now2
    ensures var c := Check(last, labels, now1, now2);
      last <= c.lastDetectionTime && (c.detection.found ==> c.detection.delta.value >= 0)
  {
  }

  /** A photo is sent exactly when a bird is among the labels and more than 30 s passed since the last detection. */
  lemma NotifyExactly(last: int, labels: seq<string>, now1: int, now2: int)
    ensures ShouldNotify(Check(last, labels, now1, now2).detection)
        <==> BirdLabel in labels && now1 - last > NotifyAfter
  {
  }

  /**
   * A run of checks each of which sees a bird at time `times[i]` (both clock
   * reads equal to it): whether each of them sends a photo.
   */
  function BirdSightings(last: int, times: seq<int>): (r: seq<bool>)
    ensures |r| == |times|
    decreases |times|
  {
    if times == [] then []
    else
      var c := Check(last, [BirdLabel], times[0], times[0]);
      [ShouldNotify(c.detection)] + BirdSightings(c.lastDetectionTime, times[1..])
  }

  /**
   * Because every sighting resets the clock, a bird that stays in view and is
   * seen at least every 30 seconds sends no photo at all, however long it stays.
   */
  lemma {:induction false} SteadyBirdIsSilent(last: int, times: seq<int>)
    requires times != [] ==> times[0] - last <= NotifyAfter
    requires forall i :: 0 < i < |times| ==> times[i] - times[i - 1] <= NotifyAfter
    ensures forall i :: 0 <= i < |times| ==> !BirdSightings(last, times)[i]
    decreases |times|
  {
    if times != [] {
      var rest := times[1..];
      forall i | 0 < i < |rest| ensures rest[i] - rest[i - 1] <= NotifyAfter {
        assert rest[i] == times[i + 1] && rest[i - 1] == times[i];
      }
      if rest != [] {
        assert rest[0] - times[0] <= NotifyAfter by { assert rest[0] == times[1]; }
      }
      SteadyBirdIsSilent(times[0], rest);
    }
  }

  /**
   * Sightings at 0, 5 and 35 seconds, 31 seconds after start: the first sends a
   * photo, and the third does not, because the sighting at 5 moved the clock.
   */
  lemma SightingsAtZeroFiveThirtyFive()
    ensures BirdSightings(-31, [0, 5, 35]) == [true, false, false]
  {
    assert [0, 5, 35][1..] == [5, 35];
    assert [5, 35][1..] == [35];
    assert [35][1..] == [];
  }
}
