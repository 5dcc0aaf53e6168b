/**
 * The grouped seven-segment log formatter: entries close in time are merged
 * into one frame, the frames' pin changes are carried over a running state,
 * and each frame with an active digit becomes one picture of the display.
 * Here a segment pin lights when it reads 0 (a missing pin reads 0, so lit).
 */
module GroupedReplay {
  import opened Wrappers
  import opened ClockLog

  /** `render_display`: absent while no digit select reads 0, else the picture of the segments reading 0. */
  function RenderDisplay(state: map<int, int>): (r: Option<string>)
    ensures r.None? <==> forall i :: 0 <= i < 4 ==> Get(state, Digits[i], 1) != 0
  {
    if ActiveDigits(state) == [] then None
    else Some(Picture(seq(8, i requires 0 <= i < 8 => Get(state, Segments[i], 0) == 0)))
  }
  /** The picture has eleven characters, and segment `k` is drawn exactly when its pin is reading 0. */
  lemma RenderedSegments(state: map<int, int>, k: nat)
    requires RenderDisplay(state).Some? && k < 7
    ensures |RenderDisplay(state).value| == 11
    ensures ReadSegments(Rows(RenderDisplay(state).value))[k] == (Get(state, Segments[k], 0) == 0)
  {
  }


  /** One merged frame: the time of its first entry and the last value each of its pins took in it. */
  datatype Frame = Frame(time: real, changes: map<int, int>)

  function Last<T>(s: seq<T>): T
    requires s != []
  {
    s[|s| - 1]
  }

  /** The entries of the groups, in order. */
  function Flatten(groups: seq<seq<LogEntry>>): seq<LogEntry>
    decreases |groups|
  {
    if groups == [] then [] else Flatten(groups[..|groups| - 1]) + Last(groups)
  }

  /**
   * One entry handed to the grouping: it joins the open (last) group when its
   * time is within `threshold` of that group's first entry, and opens a new
   * group otherwise.
   */
  function Grow(groups: seq<seq<LogEntry>>, e: LogEntry, threshold: real): seq<seq<LogEntry>> {
    if groups == [] || Last(groups) == [] then groups + [[e]]
    else if Abs(e.time - Last(groups)[0].time) > threshold then groups + [[e]]
    else groups[..|groups| - 1] + [Last(groups) + [e]]
  }

  /** The groups the formatter forms from `logs`, entry by entry. */
  function Gather(logs: seq<LogEntry>, threshold: real): (groups: seq<seq<LogEntry>>)
    ensures |groups| <= |logs|
    ensures logs != [] <==> groups != []
    ensures NonEmpty(groups)
    decreases |logs|
  {
    if logs == [] then [] else Grow(Gather(logs[..|logs| - 1], threshold), Last(logs), threshold)
  }

  /** The frame of each group. */
  function FramesOf(groups: seq<seq<LogEntry>>): (frames: seq<Frame>)
    requires NonEmpty(groups)
    ensures |frames| == |groups|
    ensures forall k :: 0 <= k < |groups| ==> frames[k].time == groups[k][0].time
  {
    seq(|groups|, k requires 0 <= k < |groups| => Frame(groups[k][0].time, PinValues(groups[k])))
  }

  /** A frame's changes name exactly the pins of its group, each with its last value in the group. */
  lemma FramesOfChanges(groups: seq<seq<LogEntry>>, k: nat, p: int)
    requires NonEmpty(groups) && k < |groups|
    ensures p in FramesOf(groups)[k].changes <==> exists j :: 0 <= j < |groups[k]| && groups[k][j].pin == p
    ensures forall j :: 0 <= j < |groups[k]| && groups[k][j].pin == p &&
                        (forall m :: j < m < |groups[k]| ==> groups[k][m].pin != p) ==>
              p in FramesOf(groups)[k].changes && FramesOf(groups)[k].changes[p] == groups[k][j].value
  {
    PinValuesLastWrite(groups[k], p);
  }

  /** The frames of `group_logs`. */
  function Frames(logs: seq<LogEntry>, threshold: real): seq<Frame> {
    FramesOf(Gather(logs, threshold))
  }

  /** Every group is non-empty. */
  predicate NonEmpty(groups: seq<seq<LogEntry>>) {
    forall k :: 0 <= k < |groups| ==> groups[k] != []
  }

  /** Every entry of a group lies within `threshold` of the group's first entry. */
  predicate Within(groups: seq<seq<LogEntry>>, threshold: real)
    requires NonEmpty(groups)
  {
    forall k, j :: 0 <= k < |groups| && 0 <= j < |groups[k]| ==>
      Abs(groups[k][j].time - groups[k][0].time) <= threshold
  }

  /** Each group's first entry lies more than `threshold` from the previous group's first entry. */
  predicate Apart(groups: seq<seq<LogEntry>>, threshold: real)
    requires NonEmpty(groups)
  {
    forall k :: 0 <= k < |groups| - 1 ==> Abs(groups[k + 1][0].time - groups[k][0].time) > threshold
  }

  /** Handing an entry to the grouping appends it to the flattened log. */
  lemma GrowFlatten(groups: seq<seq<LogEntry>>, e: LogEntry, threshold: real)
    ensures Flatten(Grow(groups, e, threshold)) == Flatten(groups) + [e]
  {
    var r: seq<seq<LogEntry>> := Grow(groups, e, threshold);
    if groups == [] || Last(groups) == [] || Abs(e.time - Last(groups)[0].time) > threshold {
      assert r[..|r| - 1] == groups;
    } else {
      var m := |groups| - 1;
      assert r[..|r| - 1] == groups[..m];
      assert Flatten(r) == Flatten(groups[..m]) + (groups[m] + [e]);
    }
  }

  /** Handing an entry to the grouping keeps every group within `threshold` of its first entry. */
  lemma GrowWithin(groups: seq<seq<LogEntry>>, e: LogEntry, threshold: real)
    requires threshold >= 0.0 && NonEmpty(groups) && Within(groups, threshold)
    ensures NonEmpty(Grow(groups, e, threshold)) && Within(Grow(groups, e, threshold), threshold)
  {
    var r: seq<seq<LogEntry>> := Grow(groups, e, threshold);
    if groups != [] && Abs(e.time - Last(groups)[0].time) <= threshold {
      var m := |groups| - 1;
      forall k, j | 0 <= k < |r| && 0 <= j < |r[k]|
        ensures Abs(r[k][j].time - r[k][0].time) <= threshold
      {
        if k < m {
          assert r[k] == groups[k];
        } else if j < |groups[m]| {
          assert r[k][j] == groups[m][j];
        }
      }
    } else {
      forall k, j | 0 <= k < |r| && 0 <= j < |r[k]|
        ensures Abs(r[k][j].time - r[k][0].time) <= threshold
      {
        if k < |groups| {
          assert r[k] == groups[k];
        }
      }
    }
  }

  /** Handing an entry to the grouping keeps the first entries of neighbouring groups apart. */
  lemma GrowApart(groups: seq<seq<LogEntry>>, e: LogEntry, threshold: real)
    requires NonEmpty(groups) && Apart(groups, threshold)
    ensures NonEmpty(Grow(groups, e, threshold)) && Apart(Grow(groups, e, threshold), threshold)
  {
    var r: seq<seq<LogEntry>> := Grow(groups, e, threshold);
    forall k | 0 <= k < |r| - 1
      ensures Abs(r[k + 1][0].time - r[k][0].time) > threshold
    {
      assert r[k] == groups[k];
      if k + 1 < |groups| {
        assert r[k + 1][0] == groups[k + 1][0];
      }
    }
  }

  /** The groups hold the entries of the log, in order. */
  lemma {:induction false} GatherFlatten(logs: seq<LogEntry>, threshold: real)
    ensures Flatten(Gather(logs, threshold)) == logs
    decreases |logs|
  {
    if logs != [] {
      var front := logs[..|logs| - 1];
      GatherFlatten(front, threshold);
      GrowFlatten(Gather(front, threshold), Last(logs), threshold);
      assert front + [Last(logs)] == logs;
    }
  }

  /** Every entry of a group lies within `threshold` of the group's first entry. */
  lemma {:induction false} GatherWithin(logs: seq<LogEntry>, threshold: real)
    requires threshold >= 0.0
    ensures Within(Gather(logs, threshold), threshold)
    decreases |logs|
  {
    if logs != [] {
      var front := logs[..|logs| - 1];
      GatherWithin(front, threshold);
      GrowWithin(Gather(front, threshold), Last(logs), threshold);
    }
  }

  /** The first entry of each group lies more than `threshold` from the previous group's first entry. */
  lemma {:induction false} GatherApart(logs: seq<LogEntry>, threshold: real)
    ensures Apart(Gather(logs, threshold), threshold)
    decreases |logs|
  {
    if logs != [] {
      var front := logs[..|logs| - 1];
      GatherApart(front, threshold);
      GrowApart(Gather(front, threshold), Last(logs), threshold);
    }
  }

  /**
   * The groups cut the log into consecutive non-empty pieces; every entry of a
   * piece lies within `threshold` of its first entry, and the first entry of
   * the next piece does not.
   */
  lemma GroupsPartition(logs: seq<LogEntry>, threshold: real)
    requires threshold >= 0.0
    ensures Flatten(Gather(logs, threshold)) == logs
    ensures NonEmpty(Gather(logs, threshold))
    ensures Within(Gather(logs, threshold), threshold)
    ensures Apart(Gather(logs, threshold), threshold)
  {
    GatherFlatten(logs, threshold);
    GatherWithin(logs, threshold);
    GatherApart(logs, threshold);
  }

  /** In a time-ordered log the frame times climb by more than `threshold` each. */
  lemma FrameTimesClimb(logs: seq<LogEntry>, threshold: real)
    requires threshold >= 0.0 && GpioParser.Sorted(logs)
    ensures forall k :: 0 <= k < |Frames(logs, threshold)| - 1 ==>
              Frames(logs, threshold)[k].time + threshold < Frames(logs, threshold)[k + 1].time
  {
    var gs: seq<seq<LogEntry>> := Gather(logs, threshold);
    var fs := Frames(logs, threshold);
    GatherFlatten(logs, threshold);
    GatherApart(logs, threshold);
    assert GpioParser.Sorted(Flatten(gs));
    forall k | 0 <= k < |fs| - 1
      ensures fs[k].time + threshold < fs[k + 1].time
    {
      FlattenOrder(gs, k);
      assert Abs(gs[k + 1][0].time - gs[k][0].time) > threshold;
    }
  }

  /** A group's first entry comes before the next group's first entry in the flattened log. */
  lemma {:induction false} FlattenOrder(groups: seq<seq<LogEntry>>, k: nat)
    requires NonEmpty(groups)
    requires k < |groups| - 1
    requires GpioParser.Sorted(Flatten(groups))
    ensures groups[k][0].time <= groups[k + 1][0].time
    decreases |groups|
  {
    var n := |groups| - 1;
    var front := groups[..n];
    assert front == groups[..|groups| - 1];
    assert Flatten(groups) == Flatten(front) + groups[n];
    assert GpioParser.Sorted(Flatten(front)) by {
      forall i | 0 <= i < |Flatten(front)|
        ensures Flatten(front)[i] == Flatten(groups)[i]
      {
      }
    }
    if k + 1 < n {
      assert front[k] == groups[k] && front[k + 1] == groups[k + 1];
      FlattenOrder(front, k);
    } else {
      assert front[k] == groups[k];
      FlattenEnds(front);
      var i := |Flatten(front)| - |groups[k]|;
      assert Flatten(groups)[i] == groups[k][0];
      assert Flatten(groups)[|Flatten(front)|] == groups[n][0];
    }
  }

  /** The last group sits at the end of the flattened log. */
  lemma FlattenEnds(groups: seq<seq<LogEntry>>)
    requires groups != []
    ensures |Flatten(groups)| >= |Last(groups)|
    ensures Flatten(groups)[|Flatten(groups)| - |Last(groups)|..] == Last(groups)
  {
  }

  /** Appending a group appends its frame. */
  lemma FramesOfSnoc(groups: seq<seq<LogEntry>>, g: seq<LogEntry>)
    requires NonEmpty(groups)
    requires g != []
    ensures FramesOf(groups + [g]) == FramesOf(groups) + [Frame(g[0].time, PinValues(g))]
  {
  }

  /** The variables of `group_logs` between entries: the open frame's time and pin changes, and the frames closed so far. */
  datatype Open = Open(currentTime: Option<real>, currentState: map<int, int>, frames: seq<Frame>)

  /** One pass of `group_logs`' loop body. */
  function Take(v: Open, e: LogEntry, threshold: real): Open {
    var t := if v.currentTime.None? then e.time else v.currentTime.value;
    var state := if v.currentTime.None? then map[] else v.currentState;
    if Abs(e.time - t) > threshold then Open(Some(e.time), map[e.pin := e.value], v.frames + [Frame(t, state)])
    else Open(Some(t), state[e.pin := e.value], v.frames)
  }

  /** The loop variables describe `groups`: the open frame is the last group, the closed frames are the ones before it. */
  ghost predicate Tracks(groups: seq<seq<LogEntry>>, v: Open) {
    && NonEmpty(groups)
    && (groups == [] ==> v == Open(None, map[], []))
    && (groups != [] ==> && v.currentTime == Some(Last(groups)[0].time)
                         && v.currentState == PinValues(Last(groups))
                         && v.frames == FramesOf(groups[..|groups| - 1]))
  }

  /** The loop body follows the grouping one entry at a time. */
  lemma TakeTracks(groups: seq<seq<LogEntry>>, v: Open, e: LogEntry, threshold: real)
    requires threshold >= 0.0 && Tracks(groups, v)
    ensures Tracks(Grow(groups, e, threshold), Take(v, e, threshold))
  {
    var r: seq<seq<LogEntry>> := Grow(groups, e, threshold);
    assert [e][..0] == [];
    if groups == [] {
      assert r == [[e]];
    } else if Abs(e.time - Last(groups)[0].time) > threshold {
      assert r == groups + [[e]];
      assert r[..|r| - 1] == groups;
      FramesOfSnoc(groups[..|groups| - 1], Last(groups));
      assert groups[..|groups| - 1] + [Last(groups)] == groups;
    } else {
      var m := |groups| - 1;
      assert r == groups[..m] + [groups[m] + [e]];
      assert r[..|r| - 1] == groups[..m];
      assert (groups[m] + [e])[..|groups[m]|] == groups[m];
      assert NonEmpty(r) by {
        forall k | 0 <= k < |r|
          ensures r[k] != []
        {
          if k < m {
            assert r[k] == groups[k];
          }
        }
      }
    }
  }

  /** The closing step of `group_logs` appends the open frame, which holds the last group. */
  lemma CloseTracks(groups: seq<seq<LogEntry>>, v: Open)
    requires Tracks(groups, v)
    ensures v.currentState != map[] <==> groups != []
    ensures groups != [] ==> v.frames + [Frame(v.currentTime.value, v.currentState)] == FramesOf(groups)
  {
    if groups != [] {
      var g := Last(groups);
      PinValuesLastWrite(g, Last(g).pin);
      FramesOfSnoc(groups[..|groups| - 1], g);
      assert groups[..|groups| - 1] + [g] == groups;
    }
  }

  /** `group_logs`' loop body on its three variables. */
  method TakeEntry(e: LogEntry, currentTime: Option<real>, currentState: map<int, int>, frames: seq<Frame>, threshold: real)
    returns (currentTime': Option<real>, currentState': map<int, int>, frames': seq<Frame>)
    ensures Open(currentTime', currentState', frames') == Take(Open(currentTime, currentState, frames), e, threshold)
  {
    currentTime', currentState', frames' := currentTime, currentState, frames;
    if currentTime'.None? {
      currentTime' := Some(e.time);
      currentState' := map[];
    }
    if Abs(e.time - currentTime'.value) > threshold {
      frames' := frames' + [Frame(currentTime'.value, currentState')];
      currentState' := map[];
      currentTime' := Some(e.time);
    }
    currentState' := currentState'[e.pin := e.value];
  }

  /** `group_logs` with `threshold` at least 0: the frames of the groups the entries fall into. */
  method GroupLogs(logs: seq<LogEntry>, threshold: real) returns (frames: seq<Frame>)
    requires threshold >= 0.0
    ensures frames == Frames(logs, threshold)
  {
    frames := [];
    var currentTime: Option<real> := None;
    var currentState: map<int, int> := map[];
    var i := 0;
    while i < |logs|
      invariant 0 <= i <= |logs|
      invariant Tracks(Gather(logs[..i], threshold), Open(currentTime, currentState, frames))
    {
      assert logs[..i + 1][..i] == logs[..i];
      TakeTracks(Gather(logs[..i], threshold), Open(currentTime, currentState, frames), logs[i], threshold);
      currentTime, currentState, frames := TakeEntry(logs[i], currentTime, currentState, frames, threshold);
      i := i + 1;
    }
    assert logs[..i] == logs;
    CloseTracks(Gather(logs, threshold), Open(currentTime, currentState, frames));
    if currentState != map[] {
      frames := frames + [Frame(currentTime.value, currentState)];
    }
  }

  /** The running state after the changes of `frames`, later frames overriding earlier ones. */
  function Carried(frames: seq<Frame>): map<int, int>
    decreases |frames|
  {
    if frames == [] then map[] else Carried(frames[..|frames| - 1]) + Last(frames).changes
  }

  /**
   * The state a frame is rendered from is the last value of every pin over all
   * entries up to the end of that frame's group.
   */
  lemma {:induction false} CarriedIsLastWrite(logs: seq<LogEntry>, threshold: real, k: nat)
    requires threshold >= 0.0 && k <= |Gather(logs, threshold)|
    ensures Carried(Frames(logs, threshold)[..k]) == PinValues(Flatten(Gather(logs, threshold)[..k]))
    decreases k
  {
    var gs := Gather(logs, threshold);
    var fs := Frames(logs, threshold);
    if k == 0 {
      assert fs[..0] == [] && gs[..0] == [];
    } else {
      CarriedIsLastWrite(logs, threshold, k - 1);
      assert fs[..k][..k - 1] == fs[..k - 1];
      assert gs[..k][..k - 1] == gs[..k - 1];
      PinValuesAppend(Flatten(gs[..k - 1]), gs[k - 1]);
    }
  }

  /** The shots of the formatter: one per frame whose running state shows an active digit. */
  function GroupedShots(frames: seq<Frame>): seq<Shot>
    decreases |frames|
  {
    if frames == [] then []
    else
      GroupedShots(frames[..|frames| - 1]) +
      match RenderDisplay(Carried(frames))
      case Some(picture) => [Shot(Last(frames).time, picture)]
      case None => []
  }

  /** The rendering loop of the formatter's main routine, over the merged frames. */
  method RenderFrames(frames: seq<Frame>) returns (shots: seq<Shot>)
    ensures shots == GroupedShots(frames)
  {
    var globalState: map<int, int> := map[];
    shots := [];
    for k := 0 to |frames|
      invariant globalState == Carried(frames[..k])
      invariant shots == GroupedShots(frames[..k])
    {
      assert frames[..k + 1][..k] == frames[..k];
      globalState := globalState + frames[k].changes;
      var frame := RenderDisplay(globalState);
      if frame.Some? {
        shots := shots + [Shot(frames[k].time, frame.value)];
      }
    }
    assert frames[..|frames|] == frames;
  }

  /** The formatter on a time-ordered log: frames merged within 10 ms, then rendered. */
  method FormatClockLog(logs: seq<LogEntry>) returns (shots: seq<Shot>)
    ensures shots == GroupedShots(Frames(logs, 0.01))
  {
    var grouped := GroupLogs(logs, 0.01);
    shots := RenderFrames(grouped);
  }
}
