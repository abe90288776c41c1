/** The keyframe index: a record (ordered list of frame ids) plus a map from
    id to frame, and the notion of the frame that is active at a time.

    The editor keeps control frames and position frames in this shape; the
    frame locator (`updateFrameByTimeMap`) answers, for a query time, which
    index of the record is active. Its body is not part of this model; this
    module states the contract the timeline controller relies on and gives a
    reference locator that meets it. */
module Timeline {

  type Id = string

  /** Every id of the record has a frame, and there is at least one frame. */
  predicate Covers<F>(rec: seq<Id>, m: map<Id, F>)
  {
    && |rec| > 0
    && forall k :: 0 <= k < |rec| ==> rec[k] in m
  }

  /** The start times of the record's frames, in record order. */
  function Starts<F>(rec: seq<Id>, m: map<Id, F>, start: F -> real): (s: seq<real>)
    requires forall k :: 0 <= k < |rec| ==> rec[k] in m
    ensures |s| == |rec|
    ensures forall k :: 0 <= k < |rec| ==> s[k] == start(m[rec[k]])
  {
    seq(|rec|, k requires 0 <= k < |rec| => start(m[rec[k]]))
  }

  /** Strictly ascending start times: the order keyframes are stored in. */
  predicate Ascending(s: seq<real>)
  {
    forall i, j :: 0 <= i < j < |s| ==> s[i] < s[j]
  }

  /** `i` is the active index for time `t`: the last keyframe starting at or
      before `t`, or 0 when `t` precedes every keyframe. */
  predicate IsActive(s: seq<real>, t: real, i: int)
  {
    && 0 <= i < |s|
    && (i == 0 || s[i] <= t)
    && (i == |s| - 1 || t < s[i + 1])
  }

  /** On ascending start times the active index is unique. */
  lemma ActiveUnique(s: seq<real>, t: real, i: int, j: int)
    requires Ascending(s)
    requires IsActive(s, t, i) && IsActive(s, t, j)
    ensures i == j
  {
  }

  /** On ascending start times the active index is the last keyframe that
      has started by `t`: no later keyframe has started, and the active one
      has started whenever any keyframe has. */
  lemma ActiveIsLastStarted(s: seq<real>, t: real, i: int)
    requires Ascending(s)
    requires IsActive(s, t, i)
    ensures forall k :: 0 <= k < |s| && s[k] <= t ==> k <= i
    ensures (exists k :: 0 <= k < |s| && s[k] <= t) ==> s[i] <= t
  {
  }

  /** A later time never has an earlier active index. */
  lemma ActiveMonotone(s: seq<real>, t1: real, t2: real, i: int, j: int)
    requires Ascending(s)
    requires t1 <= t2
    requires IsActive(s, t1, i) && IsActive(s, t2, j)
    ensures i <= j
  {
  }

  /** Each keyframe is active at its own start time. */
  lemma ActiveAtOwnStart(s: seq<real>, i: int)
    requires Ascending(s)
    requires 0 <= i < |s|
    ensures IsActive(s, s[i], i)
  {
  }

  /** Walks forward from `i` while the next keyframe has already started. */
  function Forward(s: seq<real>, i: nat, t: real): (j: nat)
    requires i < |s|
    requires i == 0 || s[i] <= t
    ensures i <= j
    ensures IsActive(s, t, j)
    decreases |s| - i
  {
    if i + 1 < |s| && s[i + 1] <= t then Forward(s, i + 1, t) else i
  }

  /** Walks backward from `i` while keyframe `i` has not started yet. */
  function Backward(s: seq<real>, i: nat, t: real): (j: nat)
    requires i < |s|
    requires i == |s| - 1 || t < s[i + 1]
    ensures j <= i
    ensures IsActive(s, t, j)
  {
    if 0 < i && t < s[i] then Backward(s, i - 1, t) else i
  }

  /** A reference frame locator: starts at the previous index `hint` (moved
      into range) and walks towards the answer, so a query close to the
      previous one costs little, and an arbitrary jump still lands on the
      active index. */
  function Locate(s: seq<real>, hint: nat, t: real): (j: nat)
    requires |s| > 0
    ensures IsActive(s, t, j)
  {
    var h := if hint < |s| then hint else |s| - 1;
    if h == 0 || s[h] <= t then Forward(s, h, t) else Backward(s, h - 1, t)
  }

  /** The assumption the controller makes of a frame locator: on a
      non-empty record it answers an index of that record. */
  ghost predicate LocatorInRange<F(!new)>(locate: (seq<Id>, map<Id, F>, nat, real) -> nat)
  {
    forall rec, m, hint, t :: |rec| > 0 ==> locate(rec, m, hint, t) < |rec|
  }

  /** A frame locator that answers the active index, whatever the hint. */
  ghost predicate LocatorCorrect<F(!new)>(locate: (seq<Id>, map<Id, F>, nat, real) -> nat, start: F -> real)
  {
    forall rec, m, hint, t :: Covers(rec, m) ==> IsActive(Starts(rec, m, start), t, locate(rec, m, hint, t))
  }

  /** The reference locator over a record and its frame map. */
  function RefLocator<F>(start: F -> real): (seq<Id>, map<Id, F>, nat, real) -> nat
  {
    (rec: seq<Id>, m: map<Id, F>, hint: nat, t: real) =>
      if Covers(rec, m) then Locate(Starts(rec, m, start), hint, t) else 0
  }

  /** The locator assumption is met: the reference locator answers an index
      in range, and the active one, whatever the hint. */
  lemma RefLocatorMeetsContract<F(!new)>(start: F -> real)
    ensures LocatorInRange(RefLocator(start))
    ensures LocatorCorrect(RefLocator(start), start)
  {
  }

  /** A correct locator does not depend on its hint once the frames are in
      ascending order. */
  lemma CorrectLocatorIgnoresHint<F(!new)>(
    locate: (seq<Id>, map<Id, F>, nat, real) -> nat, start: F -> real,
    rec: seq<Id>, m: map<Id, F>, h1: nat, h2: nat, t: real)
    requires LocatorCorrect(locate, start)
    requires Covers(rec, m) && Ascending(Starts(rec, m, start))
    ensures locate(rec, m, h1, t) == locate(rec, m, h2, t)
  {
  }
}
