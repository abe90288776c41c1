# LightDance editor: timeline controller and fibre-status route

This project models two pure pieces of the LightDance editor in Dafny and
proves properties of them.

1. **The timeline controller** (`editor/core/actions/timeData.ts`). It has four
   actions over the editor state:
   - `setCurrentTime` validates the query time and clamps it to at least 0.
     It locates the active control frame and position frame, using the
     previous indices as hints. At the last frame it holds that frame's
     status or position; otherwise it blends toward the next frame. It hands
     the old and new control indices to the LED-effect updater and records
     the active frame's fade flag.
   - `setCurrentControlIndex` and `setCurrentPosIndex` clamp an index into
     its record, turn it into that frame's start time, and seek there.
   - `initCurrentLedEffect` gives every LED part of every dancer idle
     playback.

   Each action is a function from `State` (plus payload) to an `Outcome`:
   `Done(state)`, or `Thrown(error, state)` carrying the state as it was when
   the error was thrown. The helpers the actions call live in the editor's
   utility module, which is not part of this model. They are the function
   fields of a `Utils` record: the frame locator `updateFrameByTimeMap` (one
   field per timeline), `fadeStatus`, `interpolationPos` and
   `updateLedEffect`. The actions rely on two assumptions:
   - the keyframe records are loaded (`Records.Loaded`): each record is
     non-empty and every id in it has a frame in its map;
   - on a non-empty record, each locator answers an index of that record
     (`LocatorInRange`).

   Under these two, every record and map access of the actions is proved in
   bounds.

   `Timeline.Locate` is a reference locator. It starts at the hint and walks
   forward or backward to the active frame. It shows that the locator
   assumption can be met. It also backs the stronger assumption
   `LocatorCorrect`, under which each locator answers the active frame.
   The seek properties need further hypotheses:
   - monotone seeks need `LocatorCorrect` and `Ordered` (both timelines in
     strictly ascending start order);
   - idempotent seeks need those and also `NoTransitionKeepsEffects` (the
     LED updater changes nothing when the control index does not change);
   - the index round trips, where selecting index v lands on v clamped, need
     `LocatorCorrect`, `Ordered` and also `StartsNonNegative` for the
     timeline in question (no start time before 0).

2. **The fibre-status route** (`editor-server/src/routes/api/getDancerFiberData.ts`).
   The route rejects a missing or empty dancer name with a 404. It builds
   the palette dictionary, in which a later entry overwrites an earlier one.
   It then maps each control frame to `{start, fade, status}`, where `status`
   maps each part to its colour code followed by its alpha. A colour id that
   is not in the palette gives `[0, 0, 0, alpha]`.

Files:
- `wrappers.dfy`: `Option` and `Result`.
- `assoc.dfy`: a map built from ordered key/value writes, last write wins.
- `timeline.dfy`: the keyframe index, the active-frame predicate, the
  locator contracts and the reference locator.
- `time_data.dfy`: the state and the four actions.
- `time_data_props.dfy`: properties relating several actions.
- `fiber_data.dfy`: the route.

Two points about the code that the model keeps:
- Hold versus blend is decided only on whether the located index is the
  last one (lines 47 and 80 of `editor/core/actions/timeData.ts`). Otherwise
  `fadeStatus` always gets both frames, fade flag included, and the model
  does the same.
- A NaN payload throws before any write (`editor/core/actions/timeData.ts:29-34`).
  An empty record would make the action fail after `currentTime` has been
  written. Such records are excluded (see "Left out").

## Model

| member | source | states |
|---|---|---|
| TimeData.SetCurrentTime | editor/core/actions/timeData.ts:23-94 | A NaN time throws `InvalidTime` and leaves the state exactly as it was. Otherwise `currentTime` is the payload or 0, whichever is larger, so it is never negative. The new control and position indices are what the locators answer from the pre-call indices, and they are in range. At the last frame the status and position are that frame's; elsewhere they blend frames i and i+1. The LED updater gets the pre-call control index as "last" and the new one as "new". `currentFade` is the active frame's fade flag. Palette and catalog are unchanged. |
| TimeData.SetCurrentControlIndex | editor/core/actions/timeData.ts:102-113 | A NaN index throws `InvalidControlIndex` and leaves the state untouched. An in-range index acts exactly like `setCurrentTime` at that control frame's start. A negative index acts like index 0, and an index past the end acts like the last index. |
| TimeData.SetCurrentPosIndex | editor/core/actions/timeData.ts:121-132 | The same for the position record, with `InvalidPosIndex`. |
| TimeData.Clamp | editor/core/actions/timeData.ts:110 | The clamped index lies in `[lo, hi]`. It is the index itself when in range, `lo` below and `hi` above. |
| TimeData.NonNegative | editor/core/actions/timeData.ts:32 | `Math.max(time, 0)`: never negative, and equal to the time when that is not negative. |
| TimeData.LedEntries | editor/core/actions/timeData.ts:143-150 | Walking a dancer's parts in order gives idle playback to exactly the parts typed `"LED"`, including parts the type map does not list, which get nothing. |
| TimeData.InitCurrentLedEffect | editor/core/actions/timeData.ts:138-153 | Every dancer gets an entry. Its keys are exactly the dancer's LED parts, each with `{effect: [], index: 0}`. No other field of the state changes. |
| TimeDataProps.InitCurrentLedEffectIdempotent | editor/core/actions/timeData.ts:138-153 | Initialising twice is the same as initialising once. |
| TimeDataProps.InitCurrentLedEffectIgnoresPrevious | editor/core/actions/timeData.ts:138-153 | The result does not depend on the previous `currentLedEffect`. |
| Timeline.Locate | editor/core/actions/timeData.ts:37-42 | A locator exists that uses the hint and still answers an active index for any hint. With ascending start times, that index is the last frame starting at or before the time, or 0 before the first frame (see `Timeline.ActiveIsLastStarted`). |
| Timeline.ActiveIsLastStarted | editor/core/actions/timeData.ts:37-42 | On ascending start times the active index is the last frame that has started: no later frame has started, and the active frame has started whenever any frame has. |
| Timeline.RefLocatorMeetsContract | editor/core/actions/timeData.ts:72-77 | The reference locator meets both the in-range assumption and the active-frame contract, so the controller's assumption can be met. |
| Timeline.ActiveUnique | editor/core/actions/timeData.ts:37-42 | On ascending start times the active frame for a time is unique. |
| Timeline.CorrectLocatorIgnoresHint | editor/core/actions/timeData.ts:37-42 | A locator answering the active frame gives the same index for every hint. |
| TimeDataProps.SeekLandsOnActiveFrames | editor/core/actions/timeData.ts:37-78 | With correct locators, after a seek both indices name the frame active at the new `currentTime`. |
| TimeDataProps.SetCurrentTimeIdempotent | editor/core/actions/timeData.ts:23-94 | Two seeks to the same time give the same state as one. This holds when the locators are correct and the LED updater changes nothing without an index transition. |
| TimeDataProps.SeekMonotone | editor/core/actions/timeData.ts:37-42 | Seeking to a later time never gives a smaller control or position index, whatever state each seek starts from. |
| TimeDataProps.SeekPastLastFrameHolds | editor/core/actions/timeData.ts:47-49 | At or past the last control frame's start, the index is the last one. The status is that frame's status verbatim and the fade flag is that frame's, whatever the flag says. |
| TimeDataProps.ControlIndexRoundTrip | editor/core/actions/timeData.ts:102-113 | When start times are ascending and not negative, selecting control index v lands the control index on v clamped into the record. |
| TimeDataProps.PosIndexRoundTrip | editor/core/actions/timeData.ts:121-132 | The same for position index v. |
| Assoc.FromPairs | editor-server/src/routes/api/getDancerFiberData.ts:19-22 | Performing `dict[k] = v` writes in order leaves exactly the written keys. Each key holds the value of its last write. |
| FiberData.ColorDict | editor-server/src/routes/api/getDancerFiberData.ts:18-22 | `colorDict` has exactly the palette's ids as keys. Each id maps to the colour code of the last palette entry with that id. |
| FiberData.PartValue | editor-server/src/routes/api/getDancerFiberData.ts:58-60 | A part's value always ends in its alpha. Before the alpha comes the palette colour code, or `[0, 0, 0]` when the colour id is not in the palette. |
| FiberData.FrameStatus | editor-server/src/routes/api/getDancerFiberData.ts:52-61 | A frame's status keys are exactly the part names of its control data. A repeated name keeps the value of its last entry. |
| FiberData.BuildFrames | editor-server/src/routes/api/getDancerFiberData.ts:49-63 | One output element per frame, in frame order. Each copies `start` and `fade` and carries that frame's status. |
| FiberData.GetDancerFiberData | editor-server/src/routes/api/getDancerFiberData.ts:13-68 | The route fails exactly when the dancer name is missing or empty, with a 404 and "Dancer name is required.". Otherwise it answers the frames' statuses under the palette. |
| FiberData.ResponseKeepsStartOrder | editor-server/src/routes/api/getDancerFiberData.ts:24-49 | Frames queried in ascending start order give a response in ascending start order. |
| FiberData.ResponsePartValue | editor-server/src/routes/api/getDancerFiberData.ts:19-60 | In the response, a part holds the colour code of the last palette entry with its colour id, then its alpha. It holds `[0, 0, 0, alpha]` when no palette entry has that id. |

## Left out

- The keyframe data is fetched asynchronously (`getControl`, `getPos`, `getLedMap`, the Prisma `findMany` queries). The model takes the results as inputs: the `Records` value and the route's palette and frame sequences.
- The bodies of `updateFrameByTimeMap`, `fadeStatus`, `interpolationPos` and `updateLedEffect` are in the editor's utility module, which is not part of this model. They are parameters. What the LED updater does on a transition, including any error for an uninitialised part, is its own business and is not modelled. Only `clamp` is written out, as `min(max(v, lo), hi)`.
- Floating point: time is a `real` and NaN is the `NaN` case of `Num`. Infinities are not modelled. An index payload is an integer; a fractional index, which the code would use as an array key, is not modelled.
- Empty or inconsistent records: the actions require every record to be non-empty and every id to have a frame (`Records.Loaded`). In the code, an empty record makes the action fail with a type error after it has already written `currentTime`.
- `setCurrentControlIndex` and `setCurrentPosIndex` call `setCurrentTime` without awaiting it, and `setCurrentTime` fetches the records again. The model runs the seek synchronously on the same snapshot of the data.
- The shapes of status, position and LED-effect values come from the editor's models module, which is not part of this model. The controller treats them as opaque, so any shape serves.
- Store dispatch (`registerActions`) is out: each action is a function from state to outcome.
- Express request and response handling and JSON serialisation are out. So are failures of the database queries, which the route would also turn into a 404 carrying their message.
- The Prisma `where` clause (FIBER parts of the named dancer) and `orderBy` are the database's work. The frames are inputs, already filtered and sorted.
- Colour ids are `int`s, and the dictionary is keyed by the id itself rather than by its decimal string. On integers the two are equivalent.
- Colour codes, alphas and start times on the server side are `int`s.
- Route registration (`editor-server/src/routes/index.ts`) and the LED controls UI component (`editor/components/LightProps/LEDcontrols/index.tsx`) contain no engine logic and are not modelled.
