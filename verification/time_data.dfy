/** The timeline controller of the editor: the four actions that move the
    playhead (`setCurrentTime`, `setCurrentControlIndex`,
    `setCurrentPosIndex`) and reset LED-effect playback
    (`initCurrentLedEffect`).

    Each action is a pure function from the editor state (plus its payload)
    to an `Outcome`: the state it leaves behind, and the error it throws, if
    any. The helpers the actions call into (the frame locator, the fade and
    position interpolators and the LED-effect updater) are not part of this
    model; they are passed in as the function values of a `Utils` record. */
module TimeData {
  import opened Timeline

  type DancerName = string
  type PartName = string
  type ColorMap = map<string, string>

  /** The resolved value of one part: a fibre's colour or an LED's effect
      source, with its intensity. */
  datatype PartStatus = Fiber(color: string, alpha: real) | Led(src: string, alpha: real)

  type Status = map<DancerName, map<PartName, PartStatus>>

  datatype Position = Position(x: real, y: real, z: real)

  type PosMap = map<DancerName, Position>

  datatype ControlFrame = ControlFrame(start: real, fade: bool, status: Status)

  datatype PosFrame = PosFrame(start: real, pos: PosMap)

  /** One step of an LED effect. */
  datatype LedFrame = LedFrame(start: real, fade: bool, pixels: seq<int>)

  /** LED effects by part name and effect name. */
  type LedMap = map<PartName, map<string, seq<LedFrame>>>

  /** Playback of an LED effect: its steps and the step now shown. */
  datatype LedEffectState = LedEffectState(effect: seq<LedFrame>, index: int)

  type CurrentLedEffect = map<DancerName, map<PartName, LedEffectState>>

  /** The part type that owns an LED effect. */
  const LED_TYPE: string := "LED"

  /** The editor state read and written by the actions. */
  datatype State = State(
    currentTime: real,
    currentControlIndex: nat,
    currentPosIndex: nat,
    currentStatus: Status,
    currentPos: PosMap,
    currentFade: bool,
    currentLedEffect: CurrentLedEffect,
    colorMap: ColorMap,
    dancers: map<DancerName, seq<PartName>>,
    partTypeMap: map<PartName, string>)

  /** The keyframe data the actions fetch before they run. */
  datatype Records = Records(
    controlRecord: seq<Id>,
    controlMap: map<Id, ControlFrame>,
    posRecord: seq<Id>,
    posMap: map<Id, PosFrame>,
    ledMap: LedMap)
  {
    /** Both timelines hold at least one frame and every id has its frame. */
    predicate Loaded()
    {
      Covers(controlRecord, controlMap) && Covers(posRecord, posMap)
    }
  }

  /** The helpers of the editor's utility module, as parameters. */
  datatype Utils = Utils(
    locateControl: (seq<Id>, map<Id, ControlFrame>, nat, real) -> nat,
    locatePos: (seq<Id>, map<Id, PosFrame>, nat, real) -> nat,
    fadeStatus: (real, ControlFrame, ControlFrame, ColorMap) -> Status,
    interpolationPos: (real, PosFrame, PosFrame) -> PosMap,
    updateLedEffect: (nat, nat, CurrentLedEffect, seq<Id>, map<Id, ControlFrame>, LedMap, real) -> CurrentLedEffect)

  /** A numeric payload, which may be NaN. */
  datatype Num<T> = NaN | Finite(value: T)

  datatype Error = InvalidTime | InvalidControlIndex | InvalidPosIndex

  /** What an action leaves behind: the new state, or the error it threw
      together with the state as it was when the error was thrown. */
  datatype Outcome = Done(state: State) | Thrown(error: Error, state: State)

  function ControlStart(f: ControlFrame): real { f.start }

  function PosStart(f: PosFrame): real { f.start }

  /** The LED-effect updater leaves playback alone when no keyframe
      boundary was crossed. */
  ghost predicate NoTransitionKeepsEffects(
    update: (nat, nat, CurrentLedEffect, seq<Id>, map<Id, ControlFrame>, LedMap, real) -> CurrentLedEffect)
  {
    forall i, effects, rec, m, led, t :: update(i, i, effects, rec, m, led, t) == effects
  }

  /** The fields no time action writes are those of `s`. */
  predicate SameCatalog(s: State, s': State)
  {
    && s'.colorMap == s.colorMap
    && s'.dancers == s.dancers
    && s'.partTypeMap == s.partTypeMap
  }

  /** `Math.max(t, 0)` on a number that is not NaN. */
  function NonNegative(t: real): (r: real)
    ensures r >= 0.0
    ensures t >= 0.0 ==> r == t
    ensures t < 0.0 ==> r == 0.0
  {
    if t < 0.0 then 0.0 else t
  }

  /** `clamp(v, lo, hi)`: `v` moved into `[lo, hi]`. */
  function Clamp(v: int, lo: int, hi: int): (r: int)
    requires lo <= hi
    ensures lo <= r <= hi
    ensures lo <= v <= hi ==> r == v
    ensures v < lo ==> r == lo
    ensures hi < v ==> r == hi
  {
    var atLeast := if v < lo then lo else v;
    if atLeast > hi then hi else atLeast
  }

  /** `setCurrentTime`: moves the playhead to `payload`, relocating both
      timelines, fading the status between the active control frame and
      the next one, interpolating the position likewise, and handing the
      control-index transition to the LED-effect updater. */
  function SetCurrentTime(u: Utils, d: Records, s: State, payload: Num<real>): (r: Outcome)
    requires d.Loaded()
    requires LocatorInRange(u.locateControl) && LocatorInRange(u.locatePos)
    ensures payload.NaN? <==> r.Thrown?
    ensures payload.NaN? ==> r == Thrown(InvalidTime, s)
    ensures r.Done? ==>
      var s' := r.state;
      && s'.currentTime >= 0.0
      && (payload.value >= 0.0 ==> s'.currentTime == payload.value)
      && (payload.value < 0.0 ==> s'.currentTime == 0.0)
      && SameCatalog(s, s')
    // the control timeline
    ensures r.Done? ==>
      var s' := r.state;
      var rec := d.controlRecord;
      var i := s'.currentControlIndex;
      && i == u.locateControl(rec, d.controlMap, s.currentControlIndex, s'.currentTime)
      && i < |rec|
      && (i == |rec| - 1 ==> s'.currentStatus == d.controlMap[rec[i]].status)
      && (i < |rec| - 1 ==>
            s'.currentStatus == u.fadeStatus(s'.currentTime, d.controlMap[rec[i]], d.controlMap[rec[i + 1]], s.colorMap))
      && s'.currentFade == d.controlMap[rec[i]].fade
      && s'.currentLedEffect
         == u.updateLedEffect(s.currentControlIndex, i, s.currentLedEffect, rec, d.controlMap, d.ledMap, s'.currentTime)
    // the position timeline
    ensures r.Done? ==>
      var s' := r.state;
      var rec := d.posRecord;
      var i := s'.currentPosIndex;
      && i == u.locatePos(rec, d.posMap, s.currentPosIndex, s'.currentTime)
      && i < |rec|
      && (i == |rec| - 1 ==> s'.currentPos == d.posMap[rec[i]].pos)
      && (i < |rec| - 1 ==> s'.currentPos == u.interpolationPos(s'.currentTime, d.posMap[rec[i]], d.posMap[rec[i + 1]]))
  {
    match payload
    case NaN => Thrown(InvalidTime, s)
    case Finite(p) =>
      var time := NonNegative(p);
      var crec, cmap := d.controlRecord, d.controlMap;
      var newControlIndex := u.locateControl(crec, cmap, s.currentControlIndex, time);
      var status :=
        if newControlIndex == |crec| - 1 then cmap[crec[newControlIndex]].status
        else u.fadeStatus(time, cmap[crec[newControlIndex]], cmap[crec[newControlIndex + 1]], s.colorMap);
      var ledEffect :=
        u.updateLedEffect(s.currentControlIndex, newControlIndex, s.currentLedEffect, crec, cmap, d.ledMap, time);
      var prec, pmap := d.posRecord, d.posMap;
      var newPosIndex := u.locatePos(prec, pmap, s.currentPosIndex, time);
      var pos :=
        if newPosIndex == |prec| - 1 then pmap[prec[newPosIndex]].pos
        else u.interpolationPos(time, pmap[prec[newPosIndex]], pmap[prec[newPosIndex + 1]]);
      Done(s.(
        currentTime := time,
        currentControlIndex := newControlIndex,
        currentStatus := status,
        currentLedEffect := ledEffect,
        currentPosIndex := newPosIndex,
        currentPos := pos,
        currentFade := cmap[crec[newControlIndex]].fade))
  }

  /** The start times of the control timeline, in record order. */
  function ControlStarts(d: Records): (starts: seq<real>)
    requires d.Loaded()
    ensures |starts| == |d.controlRecord|
  {
    Starts(d.controlRecord, d.controlMap, ControlStart)
  }

  /** The start times of the position timeline, in record order. */
  function PosStarts(d: Records): (starts: seq<real>)
    requires d.Loaded()
    ensures |starts| == |d.posRecord|
  {
    Starts(d.posRecord, d.posMap, PosStart)
  }

  /** `setCurrentControlIndex`: moves the playhead to the start of control
      frame `payload`, clamped into the record. */
  function SetCurrentControlIndex(u: Utils, d: Records, s: State, payload: Num<int>): (r: Outcome)
    requires d.Loaded()
    requires LocatorInRange(u.locateControl) && LocatorInRange(u.locatePos)
    ensures payload.NaN? ==> r == Thrown(InvalidControlIndex, s)
    ensures payload.Finite? && 0 <= payload.value < |d.controlRecord| ==>
      r == SetCurrentTime(u, d, s, Finite(ControlStarts(d)[payload.value]))
    ensures payload.Finite? && payload.value < 0 ==>
      r == SetCurrentTime(u, d, s, Finite(ControlStarts(d)[0]))
    ensures payload.Finite? && payload.value >= |d.controlRecord| ==>
      r == SetCurrentTime(u, d, s, Finite(ControlStarts(d)[|d.controlRecord| - 1]))
  {
    match payload
    case NaN => Thrown(InvalidControlIndex, s)
    case Finite(v) =>
      var controlIndex := Clamp(v, 0, |d.controlRecord| - 1);
      SetCurrentTime(u, d, s, Finite(d.controlMap[d.controlRecord[controlIndex]].start))
  }

  /** `setCurrentPosIndex`: moves the playhead to the start of position
      frame `payload`, clamped into the record. */
  function SetCurrentPosIndex(u: Utils, d: Records, s: State, payload: Num<int>): (r: Outcome)
    requires d.Loaded()
    requires LocatorInRange(u.locateControl) && LocatorInRange(u.locatePos)
    ensures payload.NaN? ==> r == Thrown(InvalidPosIndex, s)
    ensures payload.Finite? && 0 <= payload.value < |d.posRecord| ==>
      r == SetCurrentTime(u, d, s, Finite(PosStarts(d)[payload.value]))
    ensures payload.Finite? && payload.value < 0 ==>
      r == SetCurrentTime(u, d, s, Finite(PosStarts(d)[0]))
    ensures payload.Finite? && payload.value >= |d.posRecord| ==>
      r == SetCurrentTime(u, d, s, Finite(PosStarts(d)[|d.posRecord| - 1]))
  {
    match payload
    case NaN => Thrown(InvalidPosIndex, s)
    case Finite(v) =>
      var posIndex := Clamp(v, 0, |d.posRecord| - 1);
      SetCurrentTime(u, d, s, Finite(d.posMap[d.posRecord[posIndex]].start))
  }

  /** Whether the catalog gives `part` the LED type. */
  predicate IsLed(partTypeMap: map<PartName, string>, part: PartName)
  {
    part in partTypeMap && partTypeMap[part] == LED_TYPE
  }

  /** The idle playback every LED part starts from. */
  const IDLE: LedEffectState := LedEffectState([], 0)

  /** The per-part entries one dancer gets, built part by part in list
      order as the source's `forEach` does. */
  function LedEntries(parts: seq<PartName>, partTypeMap: map<PartName, string>): (m: map<PartName, LedEffectState>)
    ensures forall p :: p in m <==> p in parts && IsLed(partTypeMap, p)
    ensures forall p :: p in m ==> m[p] == IDLE
  {
    if |parts| == 0 then map[]
    else
      var init := parts[..|parts| - 1];
      var part := parts[|parts| - 1];
      assert parts == init + [part];
      var m := LedEntries(init, partTypeMap);
      if IsLed(partTypeMap, part) then m[part := IDLE] else m
  }

  /** `initCurrentLedEffect`: gives every dancer an entry holding idle
      playback for each of its LED parts, and nothing else. */
  function InitCurrentLedEffect(s: State): (r: State)
    ensures r.currentLedEffect.Keys == s.dancers.Keys
    ensures forall dn, p :: dn in s.dancers ==>
      (p in r.currentLedEffect[dn] <==> p in s.dancers[dn] && IsLed(s.partTypeMap, p))
    ensures forall dn, p :: dn in r.currentLedEffect && p in r.currentLedEffect[dn] ==>
      r.currentLedEffect[dn][p] == IDLE
    ensures r == s.(currentLedEffect := r.currentLedEffect)
  {
    s.(currentLedEffect := map dn | dn in s.dancers :: LedEntries(s.dancers[dn], s.partTypeMap))
  }
}
