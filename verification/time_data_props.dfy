/** Properties of the timeline controller that relate several calls, or
    that hold once the frame locator answers the active frame. */
module TimeDataProps {
  import opened Timeline
  import opened TimeData

  /** The keyframe data is as the editor stores it: loaded, each timeline
      in strictly ascending order of start time. */
  predicate Ordered(d: Records)
  {
    d.Loaded() && Ascending(ControlStarts(d)) && Ascending(PosStarts(d))
  }

  /** Both frame locators answer an index in range, and the active one. */
  ghost predicate WellBehaved(u: Utils)
  {
    && LocatorInRange(u.locateControl) && LocatorInRange(u.locatePos)
    && LocatorCorrect(u.locateControl, ControlStart) && LocatorCorrect(u.locatePos, PosStart)
  }

  /** After a seek both indices name the frame active at the new time. */
  lemma SeekLandsOnActiveFrames(u: Utils, d: Records, s: State, p: real)
    requires Ordered(d) && WellBehaved(u)
    ensures var s' := SetCurrentTime(u, d, s, Finite(p)).state;
      && IsActive(ControlStarts(d), s'.currentTime, s'.currentControlIndex)
      && IsActive(PosStarts(d), s'.currentTime, s'.currentPosIndex)
  {
  }

  /** Seeking twice to the same time gives the same state as seeking once. */
  lemma SetCurrentTimeIdempotent(u: Utils, d: Records, s: State, p: real)
    requires Ordered(d) && WellBehaved(u)
    requires NoTransitionKeepsEffects(u.updateLedEffect)
    ensures var s1 := SetCurrentTime(u, d, s, Finite(p)).state;
      SetCurrentTime(u, d, s1, Finite(p)) == Done(s1)
  {
    var s1 := SetCurrentTime(u, d, s, Finite(p)).state;
    var t := s1.currentTime;
    CorrectLocatorIgnoresHint(u.locateControl, ControlStart, d.controlRecord, d.controlMap,
      s.currentControlIndex, s1.currentControlIndex, t);
    CorrectLocatorIgnoresHint(u.locatePos, PosStart, d.posRecord, d.posMap,
      s.currentPosIndex, s1.currentPosIndex, t);
    var s2 := SetCurrentTime(u, d, s1, Finite(p)).state;
    assert s2.currentControlIndex == s1.currentControlIndex;
    assert s2.currentPosIndex == s1.currentPosIndex;
    assert s2.currentLedEffect == s1.currentLedEffect by {
      assert u.updateLedEffect(s1.currentControlIndex, s1.currentControlIndex, s1.currentLedEffect,
        d.controlRecord, d.controlMap, d.ledMap, t) == s1.currentLedEffect;
    }
  }

  /** Scrubbing forward never moves either index backward, whatever state
      each seek starts from. */
  lemma SeekMonotone(u: Utils, d: Records, s1: State, s2: State, t1: real, t2: real)
    requires Ordered(d) && WellBehaved(u)
    requires t1 <= t2
    ensures var a := SetCurrentTime(u, d, s1, Finite(t1)).state;
      var b := SetCurrentTime(u, d, s2, Finite(t2)).state;
      && a.currentControlIndex <= b.currentControlIndex
      && a.currentPosIndex <= b.currentPosIndex
  {
    var a := SetCurrentTime(u, d, s1, Finite(t1)).state;
    var b := SetCurrentTime(u, d, s2, Finite(t2)).state;
    SeekLandsOnActiveFrames(u, d, s1, t1);
    SeekLandsOnActiveFrames(u, d, s2, t2);
    ActiveMonotone(ControlStarts(d), a.currentTime, b.currentTime, a.currentControlIndex, b.currentControlIndex);
    ActiveMonotone(PosStarts(d), a.currentTime, b.currentTime, a.currentPosIndex, b.currentPosIndex);
  }

  /** At or past the last control frame the status is that frame's,
      unchanged, whatever its fade flag. */
  lemma SeekPastLastFrameHolds(u: Utils, d: Records, s: State, p: real)
    requires Ordered(d) && WellBehaved(u)
    requires p >= ControlStarts(d)[|d.controlRecord| - 1]
    ensures var s' := SetCurrentTime(u, d, s, Finite(p)).state;
      var last := d.controlRecord[|d.controlRecord| - 1];
      && s'.currentControlIndex == |d.controlRecord| - 1
      && s'.currentStatus == d.controlMap[last].status
      && s'.currentFade == d.controlMap[last].fade
  {
    SeekLandsOnActiveFrames(u, d, s, p);
  }

  /** Every start time is at or after time zero. */
  predicate StartsNonNegative(s: seq<real>)
  {
    forall k :: 0 <= k < |s| ==> s[k] >= 0.0
  }

  /** Selecting a control frame by index lands on that frame, clamped into
      the record. */
  lemma ControlIndexRoundTrip(u: Utils, d: Records, s: State, v: int)
    requires Ordered(d) && WellBehaved(u)
    requires StartsNonNegative(ControlStarts(d))
    ensures SetCurrentControlIndex(u, d, s, Finite(v)).state.currentControlIndex
            == Clamp(v, 0, |d.controlRecord| - 1)
  {
    var i := Clamp(v, 0, |d.controlRecord| - 1);
    var s' := SetCurrentControlIndex(u, d, s, Finite(v)).state;
    SeekLandsOnActiveFrames(u, d, s, ControlStarts(d)[i]);
    ActiveAtOwnStart(ControlStarts(d), i);
    ActiveUnique(ControlStarts(d), s'.currentTime, i, s'.currentControlIndex);
  }

  /** Selecting a position frame by index lands on that frame, clamped into
      the record. */
  lemma PosIndexRoundTrip(u: Utils, d: Records, s: State, v: int)
    requires Ordered(d) && WellBehaved(u)
    requires StartsNonNegative(PosStarts(d))
    ensures SetCurrentPosIndex(u, d, s, Finite(v)).state.currentPosIndex
            == Clamp(v, 0, |d.posRecord| - 1)
  {
    var i := Clamp(v, 0, |d.posRecord| - 1);
    var s' := SetCurrentPosIndex(u, d, s, Finite(v)).state;
    SeekLandsOnActiveFrames(u, d, s, PosStarts(d)[i]);
    ActiveAtOwnStart(PosStarts(d), i);
    ActiveUnique(PosStarts(d), s'.currentTime, i, s'.currentPosIndex);
  }

  /** Re-initialising LED playback changes nothing. */
  lemma InitCurrentLedEffectIdempotent(s: State)
    ensures InitCurrentLedEffect(InitCurrentLedEffect(s)) == InitCurrentLedEffect(s)
  {
  }

  /** Initialising LED playback forgets whatever playback was there. */
  lemma InitCurrentLedEffectIgnoresPrevious(s: State, effects: CurrentLedEffect)
    ensures InitCurrentLedEffect(s.(currentLedEffect := effects)) == InitCurrentLedEffect(s)
  {
  }
}
