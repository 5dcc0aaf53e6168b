/**
 * The batch seven-segment log replayer: entries are applied one by one to a
 * running pin map, and whenever an entry's time differs from the previous
 * one's by more than a millisecond the display is pictured and stamped with
 * the previous time; the final state is pictured once more at the end.
 * Here a segment pin lights when its value is non-zero (a missing pin reads 0).
 */
module BatchReplay {
  import opened Wrappers
  import opened ClockLog
  import GpioParser

  /**
   * `render_display`: absent while no digit select reads 0, else the picture
   * of the non-zero segments. Only one digit is ever drawn, so joining the
   * rows of the drawn digits side by side leaves that digit's rows as they are.
   */
  function RenderDisplay(state: map<int, int>): (r: Option<string>)
    ensures r.None? <==> forall i :: 0 <= i < 4 ==> Get(state, Digits[i], 1) != 0
  {
    if ActiveDigits(state) == [] then None
    else Some(Picture(seq(8, i requires 0 <= i < 8 => Get(state, Segments[i], 0) != 0)))
  }
  /** The picture has eleven characters, and segment `k` is drawn exactly when its pin is non-zero. */
  lemma RenderedSegments(state: map<int, int>, k: nat)
    requires RenderDisplay(state).Some? && k < 7
    ensures |RenderDisplay(state).value| == 11
    ensures ReadSegments(Rows(RenderDisplay(state).value))[k] == (Get(state, Segments[k], 0) != 0)
  {
  }


  /** The shot of `state` stamped `time`, when the display shows anything. */
  function ShotOf(time: real, state: map<int, int>): seq<Shot> {
    match RenderDisplay(state)
    case Some(picture) => [Shot(time, picture)]
    case None => []
  }

  /** Entry `n` opens a new batch: its time is more than 1 ms away from the previous entry's. */
  predicate Boundary(logs: seq<LogEntry>, n: nat)
    requires 1 <= n < |logs|
  {
    Abs(logs[n].time - logs[n - 1].time) > 0.001
  }

  /**
   * The shots the loop emits over the first `n` entries, as written: at a
   * boundary entry the picture is taken after that entry is applied, and
   * stamped with the previous entry's time.
   */
  function Emitted(logs: seq<LogEntry>, n: nat): seq<Shot>
    requires n <= |logs|
  {
    if n == 0 then []
    else Emitted(logs, n - 1) +
         if n - 1 >= 1 && Boundary(logs, n - 1) then ShotOf(logs[n - 2].time, PinValues(logs[..n])) else []
  }

  /** The whole output of the replayer: the loop's shots, then the final state at the last time. */
  function ReplayShots(logs: seq<LogEntry>): seq<Shot> {
    Emitted(logs, |logs|) + if logs == [] then [] else ShotOf(logs[|logs| - 1].time, PinValues(logs))
  }

  /** The empty pin map shows nothing: every digit select reads its default 1. */
  lemma EmptyShowsNothing()
    ensures RenderDisplay(map[]).None?
  {
    assert forall i :: 0 <= i < 4 ==> Get(map[], Digits[i], 1) == 1;
  }

  /** One more entry through the loop: its shot, if it closes a batch, follows the earlier ones. */
  lemma EmittedStep(logs: seq<LogEntry>, i: nat, state: map<int, int>, lastTime: Option<real>)
    requires i < |logs| && state == PinValues(logs[..i + 1])
    requires lastTime == if i == 0 then None else Some(logs[i - 1].time)
    ensures Emitted(logs, i + 1) ==
            Emitted(logs, i) + if lastTime.Some? && Abs(logs[i].time - lastTime.value) > 0.001 then ShotOf(lastTime.value, state) else []
  {
    var added := if i >= 1 && Boundary(logs, i) then ShotOf(logs[i - 1].time, state) else [];
    assert Emitted(logs, i + 1) == Emitted(logs, i) + added;
  }

  /** The replayer's loop variables: running pin map, previous entry time, shots so far. */
  datatype Scan = Scan(state: map<int, int>, lastTime: Option<real>, shots: seq<Shot>)

  /**
   * One pass of the replayer's loop: the entry's value is stored, and when its
   * time is more than 1 ms from the previous entry's, the display is pictured
   * and stamped with that previous time.
   */
  function Step(s: Scan, e: LogEntry): Scan {
    var state := s.state[e.pin := e.value];
    var shots := if s.lastTime.Some? && Abs(e.time - s.lastTime.value) > 0.001
                 then s.shots + ShotOf(s.lastTime.value, state) else s.shots;
    Scan(state, Some(e.time), shots)
  }

  /** The loop variables after every entry of `logs`. */
  function ScanAll(logs: seq<LogEntry>): Scan
    decreases |logs|
  {
    if logs == [] then Scan(map[], None, []) else Step(ScanAll(logs[..|logs| - 1]), logs[|logs| - 1])
  }

  /**
   * After the loop the pin map holds the last value of each pin, the previous
   * time is the last entry's, and the shots are those of the batch boundaries.
   */
  lemma {:induction false} ScanAllMeaning(logs: seq<LogEntry>, n: nat)
    requires n <= |logs|
    ensures ScanAll(logs[..n]).state == PinValues(logs[..n])
    ensures ScanAll(logs[..n]).lastTime == if n == 0 then None else Some(logs[n - 1].time)
    ensures ScanAll(logs[..n]).shots == Emitted(logs, n)
    decreases n
  {
    if n > 0 {
      ScanAllMeaning(logs, n - 1);
      assert logs[..n][..n - 1] == logs[..n - 1];
      EmittedStep(logs, n - 1, PinValues(logs[..n]), ScanAll(logs[..n - 1]).lastTime);
    }
  }

  /** One pass of the replayer's loop. */
  method Feed(e: LogEntry, state: map<int, int>, lastTime: Option<real>, shots: seq<Shot>)
    returns (state': map<int, int>, lastTime': Option<real>, shots': seq<Shot>)
    ensures Scan(state', lastTime', shots') == Step(Scan(state, lastTime, shots), e)
  {
    state' := state[e.pin := e.value];
    shots' := shots;
    if lastTime.Some? && Abs(e.time - lastTime.value) > 0.001 {
      var frame := RenderDisplay(state');
      if frame.Some? {
        shots' := shots' + [Shot(lastTime.value, frame.value)];
      }
    }
    lastTime' := Some(e.time);
  }

  /** The replayer's loop over the entries. */
  method ReplayEntries(logs: seq<LogEntry>) returns (state: map<int, int>, lastTime: Option<real>, shots: seq<Shot>)
    ensures Scan(state, lastTime, shots) == ScanAll(logs)
  {
    shots := [];
    state := map[];
    lastTime := None;
    for i := 0 to |logs|
      invariant Scan(state, lastTime, shots) == ScanAll(logs[..i])
    {
      assert logs[..i + 1][..i] == logs[..i];
      state, lastTime, shots := Feed(logs[i], state, lastTime, shots);
    }
    assert logs[..|logs|] == logs;
  }

  /** The replayer's main routine over a time-ordered log: the loop, then the final state at the last time. */
  method ReplayClockLog(logs: seq<LogEntry>) returns (shots: seq<Shot>)
    ensures shots == ReplayShots(logs)
  {
    var state, lastTime;
    state, lastTime, shots := ReplayEntries(logs);
    ScanAllMeaning(logs, |logs|);
    assert logs[..|logs|] == logs;
    if logs == [] {
      EmptyShowsNothing();
    }
    var frame := RenderDisplay(state);
    if frame.Some? {
      shots := shots + [Shot(lastTime.value, frame.value)];
    }
  }

  /** The pin map at time `t`: the last value of every pin over the entries up to `t`. */
  function StateAt(logs: seq<LogEntry>, t: real): map<int, int> {
    PinValues(logs[..GpioParser.AppliedCount(logs, t)])
  }

  /**
   * The shots of the corrected loop: at a boundary entry the picture is taken
   * before that entry is applied, so it shows the batch just closed.
   */
  function FixedEmitted(logs: seq<LogEntry>, n: nat): seq<Shot>
    requires n <= |logs|
  {
    if n == 0 then []
    else FixedEmitted(logs, n - 1) +
         if n - 1 >= 1 && Boundary(logs, n - 1) then ShotOf(logs[n - 2].time, PinValues(logs[..n - 1])) else []
  }

  /** The corrected output: the corrected loop's shots, then the final state at the last time. */
  function FixedShots(logs: seq<LogEntry>): seq<Shot> {
    FixedEmitted(logs, |logs|) + if logs == [] then [] else ShotOf(logs[|logs| - 1].time, PinValues(logs))
  }

  /** Every shot of a time-ordered log shows the display exactly as it stood at the shot's stamp. */
  predicate ShowsStateAtStamp(logs: seq<LogEntry>, shots: seq<Shot>) {
    forall k :: 0 <= k < |shots| ==> RenderDisplay(StateAt(logs, shots[k].time)) == Some(shots[k].picture)
  }

  /** A shot of state `s` stamped `t` shows the state at `t` when `s` is that state. */
  lemma ShotOfShowsState(logs: seq<LogEntry>, t: real, s: map<int, int>)
    requires s == StateAt(logs, t)
    ensures ShowsStateAtStamp(logs, ShotOf(t, s))
  {
    match RenderDisplay(s)
    case None =>
      assert ShotOf(t, s) == [];
    case Some(picture) =>
      assert ShotOf(t, s) == [Shot(t, picture)];
  }

  /** Shots satisfying the property may be appended to one another. */
  lemma ShowsAppend(logs: seq<LogEntry>, a: seq<Shot>, b: seq<Shot>)
    requires ShowsStateAtStamp(logs, a) && ShowsStateAtStamp(logs, b)
    ensures ShowsStateAtStamp(logs, a + b)
  {
    forall k | 0 <= k < |a + b|
      ensures RenderDisplay(StateAt(logs, (a + b)[k].time)) == Some((a + b)[k].picture)
    {
      if k >= |a| {
        assert (a + b)[k] == b[k - |a|];
      }
    }
  }

  /**
   * The corrected replayer on a time-ordered log: every shot, including the
   * final one, shows the pin values of exactly the entries up to its stamp.
   */
  lemma {:induction false} FixedShowsStateAtStamp(logs: seq<LogEntry>)
    requires GpioParser.Sorted(logs)
    ensures ShowsStateAtStamp(logs, FixedShots(logs))
  {
    FixedEmittedShowsState(logs, |logs|);
    if logs != [] {
      var t := logs[|logs| - 1].time;
      StateAtEnd(logs);
      ShotOfShowsState(logs, t, PinValues(logs));
      ShowsAppend(logs, FixedEmitted(logs, |logs|), ShotOf(t, PinValues(logs)));
    } else {
      assert FixedShots(logs) == [];
    }
  }

  lemma {:induction false} FixedEmittedShowsState(logs: seq<LogEntry>, n: nat)
    requires GpioParser.Sorted(logs) && n <= |logs|
    ensures ShowsStateAtStamp(logs, FixedEmitted(logs, n))
    decreases n
  {
    if n > 0 {
      FixedEmittedShowsState(logs, n - 1);
      if n - 1 >= 1 && Boundary(logs, n - 1) {
        var b := n - 1;
        var t := logs[b - 1].time;
        StateAtBoundary(logs, b);
        ShotOfShowsState(logs, t, PinValues(logs[..b]));
        ShowsAppend(logs, FixedEmitted(logs, n - 1), ShotOf(t, PinValues(logs[..b])));
        assert FixedEmitted(logs, n) == FixedEmitted(logs, n - 1) + ShotOf(t, PinValues(logs[..b]));
      } else {
        assert FixedEmitted(logs, n) == FixedEmitted(logs, n - 1) + [];
        assert FixedEmitted(logs, n) == FixedEmitted(logs, n - 1);
      }
    }
  }

  /** In a time-ordered log, the state at the entry before a batch boundary holds exactly the entries before the boundary. */
  lemma StateAtBoundary(logs: seq<LogEntry>, b: nat)
    requires GpioParser.Sorted(logs) && 1 <= b < |logs| && Boundary(logs, b)
    ensures StateAt(logs, logs[b - 1].time) == PinValues(logs[..b])
  {
    var t := logs[b - 1].time;
    assert logs[b].time > t;
    forall i | 0 <= i < b
      ensures logs[i].time <= t
    {
      if i < b - 1 {
        assert logs[i].time <= logs[b - 1].time;
      }
    }
    GpioParser.FirstLaterCount(logs, b, t);
  }

  /** In a time-ordered log, the state at the last entry's time holds every entry. */
  lemma StateAtEnd(logs: seq<LogEntry>)
    requires GpioParser.Sorted(logs) && logs != []
    ensures StateAt(logs, logs[|logs| - 1].time) == PinValues(logs)
  {
    var t := logs[|logs| - 1].time;
    forall i | 0 <= i < |logs|
      ensures logs[i].time <= t
    {
      if i < |logs| - 1 {
        assert logs[i].time <= logs[|logs| - 1].time;
      }
    }
    assert GpioParser.AppliedCount(logs, t) == |logs|;
    assert logs[..|logs|] == logs;
  }

  /** Two entries on DIG1's select pin: pulled low at 0 s, released at 1 s. */
  function DigitBlinkLog(): seq<LogEntry> {
    [GpioParser.LogEntry(0.0, "GPIO.output", 11, 0), GpioParser.LogEntry(1.0, "GPIO.output", 11, 1)]
  }

  /**
   * As written, the replayer misses the first batch: DIG1 is active throughout
   * the batch at 0 s, yet no shot is produced, because that batch is pictured
   * only after the release at 1 s was applied. The corrected loop shows it.
   */
  lemma BlinkIsMissed()
    ensures RenderDisplay(StateAt(DigitBlinkLog(), 0.0)).Some?
    ensures ReplayShots(DigitBlinkLog()) == []
    ensures |FixedShots(DigitBlinkLog())| == 1 && FixedShots(DigitBlinkLog())[0].time == 0.0
  {
    var logs := DigitBlinkLog();
    assert GpioParser.AppliedCount(logs, 0.0) == 1;
    assert logs[..1] == [logs[0]];
    assert logs[..1][..0] == [];
    assert StateAt(logs, 0.0) == map[11 := 0];
    assert Get(StateAt(logs, 0.0), Digits[0], 1) == 0;
    assert logs[..2] == logs;
    assert logs[..2][..1] == logs[..1];
    assert PinValues(logs) == map[11 := 1];
    assert forall i :: 0 <= i < 4 ==> Get(map[11 := 1], Digits[i], 1) != 0;
    assert Boundary(logs, 1);
    assert Emitted(logs, 1) == [];
  }
}
