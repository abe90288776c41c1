/** The server route that lists, for one dancer, the fibre status of every
    control frame: each part's palette colour followed by its alpha.

    The database queries are not part of this model: the palette and the
    frames (already restricted to the dancer's FIBER parts and sorted by
    start) are inputs. */
module FiberData {
  import opened Wrappers
  import Assoc

  /** A palette entry: its id and its colour code. */
  datatype Color = Color(id: int, colorCode: seq<int>)

  /** The value a control frame sets on one part. */
  datatype ControlData = ControlData(partName: string, color: int, alpha: int)

  /** A control frame as the query returns it. */
  datatype FrameRow = FrameRow(start: int, fade: bool, controlDatas: seq<ControlData>)

  /** One element of the response. */
  datatype FiberFrame = FiberFrame(start: int, fade: bool, status: map<string, seq<int>>)

  datatype HttpError = HttpError(code: int, message: string)

  const NOT_FOUND: int := 404

  const DANCER_REQUIRED: string := "Dancer name is required."

  /** The colour written for a part whose colour id is not in the palette. */
  const BLACK: seq<int> := [0, 0, 0]

  /** `colors[i]` is the last palette entry with its id. */
  ghost predicate IsLastColor(colors: seq<Color>, i: int)
  {
    && 0 <= i < |colors|
    && forall j :: i < j < |colors| ==> colors[j].id != colors[i].id
  }

  /** The palette as the key/value writes `colorDict[id] = colorCode`. */
  function ColorWrites(colors: seq<Color>): (ps: seq<(int, seq<int>)>)
    ensures |ps| == |colors|
    ensures forall i :: 0 <= i < |colors| ==> ps[i] == (colors[i].id, colors[i].colorCode)
  {
    seq(|colors|, i requires 0 <= i < |colors| => (colors[i].id, colors[i].colorCode))
  }

  /** `colorDict`: colour id to colour code; a later entry with the same id
      overwrites an earlier one. */
  function ColorDict(colors: seq<Color>): (dict: map<int, seq<int>>)
    ensures forall id :: id in dict <==> exists i :: 0 <= i < |colors| && colors[i].id == id
    ensures forall i :: IsLastColor(colors, i) ==> colors[i].id in dict && dict[colors[i].id] == colors[i].colorCode
  {
    var ps := ColorWrites(colors);
    assert forall i :: IsLastColor(colors, i) ==> Assoc.IsLastFor(ps, i);
    assert forall id :: id in Assoc.KeysOf(ps) ==> exists i :: 0 <= i < |colors| && colors[i].id == id;
    Assoc.FromPairs(ps)
  }

  /** The status value of one part: its colour code followed by its alpha,
      black when the colour id is not in the palette. */
  function PartValue(dict: map<int, seq<int>>, color: int, alpha: int): (v: seq<int>)
    ensures |v| > 0 && v[|v| - 1] == alpha
    ensures color in dict ==> v[..|v| - 1] == dict[color]
    ensures color !in dict ==> v[..|v| - 1] == BLACK
  {
    if color !in dict then BLACK + [alpha] else dict[color] + [alpha]
  }

  /** `controlDatas[i]` is the last value the frame sets on its part. */
  ghost predicate IsLastData(datas: seq<ControlData>, i: int)
  {
    && 0 <= i < |datas|
    && forall j :: i < j < |datas| ==> datas[j].partName != datas[i].partName
  }

  /** The frame's values as the writes `status[name] = value`. */
  function StatusWrites(dict: map<int, seq<int>>, datas: seq<ControlData>): (ps: seq<(string, seq<int>)>)
    ensures |ps| == |datas|
    ensures forall i :: 0 <= i < |datas| ==>
      ps[i] == (datas[i].partName, PartValue(dict, datas[i].color, datas[i].alpha))
  {
    seq(|datas|, i requires 0 <= i < |datas| =>
      (datas[i].partName, PartValue(dict, datas[i].color, datas[i].alpha)))
  }

  /** The status of one frame: exactly its parts, each with the value of
      the last entry naming it. */
  function FrameStatus(dict: map<int, seq<int>>, datas: seq<ControlData>): (status: map<string, seq<int>>)
    ensures forall name :: name in status <==> exists i :: 0 <= i < |datas| && datas[i].partName == name
    ensures forall i :: IsLastData(datas, i) ==>
      datas[i].partName in status && status[datas[i].partName] == PartValue(dict, datas[i].color, datas[i].alpha)
  {
    var ps := StatusWrites(dict, datas);
    assert forall i :: IsLastData(datas, i) ==> Assoc.IsLastFor(ps, i);
    assert forall name :: name in Assoc.KeysOf(ps) ==> exists i :: 0 <= i < |datas| && datas[i].partName == name;
    Assoc.FromPairs(ps)
  }

  /** `frames.map(...)`: one response element per frame, in frame order. */
  function BuildFrames(dict: map<int, seq<int>>, frames: seq<FrameRow>): (out: seq<FiberFrame>)
    ensures |out| == |frames|
    ensures forall i :: 0 <= i < |frames| ==>
      && out[i].start == frames[i].start
      && out[i].fade == frames[i].fade
      && out[i].status == FrameStatus(dict, frames[i].controlDatas)
  {
    seq(|frames|, i requires 0 <= i < |frames| =>
      FiberFrame(frames[i].start, frames[i].fade, FrameStatus(dict, frames[i].controlDatas)))
  }

  /** The route: a missing or empty dancer name is a 404 carrying the
      message; otherwise the frames' statuses under the palette. */
  function GetDancerFiberData(dancer: Option<string>, colors: seq<Color>, frames: seq<FrameRow>)
    : (r: Result<seq<FiberFrame>, HttpError>)
    ensures r.Failure? <==> dancer.None? || dancer.value == ""
    ensures r.Failure? ==> r.error == HttpError(NOT_FOUND, DANCER_REQUIRED)
    ensures r.Success? ==> r.value == BuildFrames(ColorDict(colors), frames)
  {
    if dancer.None? || dancer.value == "" then Failure(HttpError(NOT_FOUND, DANCER_REQUIRED))
    else Success(BuildFrames(ColorDict(colors), frames))
  }

  /** The response lists frames in the order of the query, so starts that
      ascend in the query ascend in the response. */
  lemma ResponseKeepsStartOrder(dancer: Option<string>, colors: seq<Color>, frames: seq<FrameRow>)
    requires forall i, j :: 0 <= i < j < |frames| ==> frames[i].start < frames[j].start
    ensures var r := GetDancerFiberData(dancer, colors, frames);
      r.Success? ==> forall i, j :: 0 <= i < j < |r.value| ==> r.value[i].start < r.value[j].start
  {
  }

  /** A part of a response frame holds the colour code of the last
      palette entry with its colour id, followed by its alpha; black when no
      palette entry has that id. */
  lemma ResponsePartValue(colors: seq<Color>, frames: seq<FrameRow>, k: int, i: int)
    requires 0 <= k < |frames|
    requires IsLastData(frames[k].controlDatas, i)
    ensures var out := BuildFrames(ColorDict(colors), frames);
      var data := frames[k].controlDatas[i];
      && data.partName in out[k].status
      && ((forall c :: c in colors ==> c.id != data.color) ==>
            out[k].status[data.partName] == BLACK + [data.alpha])
      && (forall j :: IsLastColor(colors, j) && colors[j].id == data.color ==>
            out[k].status[data.partName] == colors[j].colorCode + [data.alpha])
  {
  }
}
