/**
 * The playback clock of the front end: a cursor in `[0, duration]` that the
 * animation frames advance at `playbackSpeed` times real time while playing,
 * with toggle (restart at the end), stop, clamped seek and a speed setter.
 */
module Playback {
  import opened Wrappers
  import GpioParser

  /** `seek`'s target: `max(0, min(t, duration))`. */
  function Clamp(t: real, duration: real): (r: real)
    ensures duration >= 0.0 ==> 0.0 <= r <= duration
    ensures 0.0 <= t <= duration ==> r == t
    ensures t <= 0.0 ==> r == 0.0
    ensures 0.0 <= duration <= t ==> r == duration
  {
    var upper := if t < duration then t else duration;
    if upper > 0.0 then upper else 0.0
  }

  /** Cursor and play flag after one animation frame. */
  datatype Step = Step(cursor: real, playing: bool)

  /**
   * One animation frame that moves the cursor by `distance` (elapsed real time
   * times speed); a move that reaches `duration` lands exactly on it and ends
   * playback.
   */
  function Advance(cursor: real, distance: real, duration: real): (r: Step)
    ensures r.playing <==> cursor + distance < duration
    ensures 0.0 <= cursor <= duration && distance >= 0.0 ==> cursor <= r.cursor <= duration
    ensures !r.playing ==> r.cursor == duration
    ensures r.playing ==> r.cursor - cursor == distance
  {
    var newTime := cursor + distance;
    if newTime >= duration then Step(duration, false) else Step(newTime, true)
  }

  /** Sum of a run of frame moves. */
  function Total(moves: seq<real>): real {
    if moves == [] then 0.0 else moves[0] + Total(moves[1..])
  }

  /** Frame moves are never backwards. */
  predicate NonNegative(moves: seq<real>) {
    forall i :: 0 <= i < |moves| ==> moves[i] >= 0.0
  }

  /**
   * A run of frames from `cursor`: each frame advances the cursor, and the
   * frames stop coming once one of them ends playback.
   */
  function Run(cursor: real, moves: seq<real>, duration: real): Step
    decreases |moves|
  {
    if moves == [] then Step(cursor, true)
    else
      var s := Advance(cursor, moves[0], duration);
      if !s.playing then s else Run(s.cursor, moves[1..], duration)
  }

  lemma {:induction false} TotalNonNegative(moves: seq<real>)
    requires NonNegative(moves)
    ensures Total(moves) >= 0.0
  {
    if moves != [] {
      TotalNonNegative(moves[1..]);
    }
  }

  /**
   * Frames add up: a run keeps playing exactly while the total move stays
   * below `duration`, in which case the cursor has moved by that total; once
   * it is reached the cursor sits exactly on `duration` and playback is over.
   */
  lemma {:induction false} RunReachesEnd(cursor: real, moves: seq<real>, duration: real)
    requires 0.0 <= cursor < duration && NonNegative(moves)
    ensures Run(cursor, moves, duration).playing <==> cursor + Total(moves) < duration
    ensures Run(cursor, moves, duration).playing ==> Run(cursor, moves, duration).cursor == cursor + Total(moves)
    ensures !Run(cursor, moves, duration).playing ==> Run(cursor, moves, duration).cursor == duration
    decreases |moves|
  {
    if moves != [] {
      var s := Advance(cursor, moves[0], duration);
      var rest := moves[1..];
      TotalNonNegative(rest);
      assert Total(moves) == moves[0] + Total(rest);
      if s.playing {
        RunReachesEnd(s.cursor, rest, duration);
        assert Run(cursor, moves, duration) == Run(s.cursor, rest, duration);
      } else {
        assert Run(cursor, moves, duration) == s;
      }
    }
  }

  /**
   * One more frame after a run: while the run is still playing the frame takes
   * the same step as `PlaybackClock.Animate` (an `Advance` from where the run
   * left the cursor); once the run has ended no further frame comes.
   */
  lemma {:induction false} RunSnoc(cursor: real, moves: seq<real>, move: real, duration: real)
    ensures Run(cursor, moves + [move], duration) ==
            var s := Run(cursor, moves, duration);
            if s.playing then Advance(s.cursor, move, duration) else s
    decreases |moves|
  {
    if moves == [] {
      assert [] + [move] == [move];
      assert [move][1..] == [];
    } else {
      var s := Advance(cursor, moves[0], duration);
      assert (moves + [move])[0] == moves[0];
      assert (moves + [move])[1..] == moves[1..] + [move];
      if s.playing {
        RunSnoc(s.cursor, moves[1..], move, duration);
      }
    }
  }

  /** The moves of frames lasting `elapsed` seconds each at a fixed speed. */
  function Scaled(elapsed: seq<real>, speed: real): (moves: seq<real>)
    ensures |moves| == |elapsed|
    ensures forall i :: 0 <= i < |elapsed| ==> moves[i] == elapsed[i] * speed
  {
    seq(|elapsed|, i requires 0 <= i < |elapsed| => elapsed[i] * speed)
  }

  /** At a fixed speed, the total move is the total frame time times the speed. */
  lemma {:induction false} ScaledTotal(elapsed: seq<real>, speed: real)
    ensures Total(Scaled(elapsed, speed)) == Total(elapsed) * speed
    decreases |elapsed|
  {
    if elapsed != [] {
      ScaledTotal(elapsed[1..], speed);
      var moves := Scaled(elapsed, speed);
      assert |moves[1..]| == |Scaled(elapsed[1..], speed)|;
      forall i | 0 <= i < |elapsed| - 1
        ensures moves[1..][i] == Scaled(elapsed[1..], speed)[i]
      {
        assert elapsed[1..][i] == elapsed[i + 1];
      }
      assert moves[1..] == Scaled(elapsed[1..], speed);
      assert Total(moves) == moves[0] + Total(moves[1..]);
      Distribute(elapsed[0], Total(elapsed[1..]), speed);
    }
  }

  lemma Distribute(x: real, y: real, z: real)
    ensures (x + y) * z == x * z + y * z
  {
  }

  /**
   * Fallback duration when the run reports none: the latest entry time (at
   * least 0) plus half a second, and never less than five seconds.
   */
  function FallbackDuration(logs: seq<GpioParser.LogEntry>): (r: real)
    ensures r >= 5.0
    ensures forall i :: 0 <= i < |logs| ==> r >= logs[i].time + 0.5
    ensures r == 5.0 || exists i :: 0 <= i < |logs| && r == logs[i].time + 0.5
  {
    var maxTime := LatestTime(logs);
    if maxTime + 0.5 > 5.0 then maxTime + 0.5 else 5.0
  }

  /** `reduce((max, log) => Math.max(max, log.time), 0)`. */
  function LatestTime(logs: seq<GpioParser.LogEntry>): (m: real)
    ensures m >= 0.0
    ensures forall i :: 0 <= i < |logs| ==> logs[i].time <= m
    ensures m == 0.0 || exists i :: 0 <= i < |logs| && m == logs[i].time
  {
    if logs == [] then 0.0
    else
      var m := LatestTime(logs[..|logs| - 1]);
      var t := logs[|logs| - 1].time;
      if t > m then t else m
  }

  /** The state of the playback hook. */
  class PlaybackClock {
    /** The cursor, in seconds of simulated time. */
    var currentTime: real
    var isPlaying: bool
    var playbackSpeed: real
    /** Length of the run, in seconds. */
    const duration: real
    /** Timestamp (milliseconds) of the previous animation frame; absent while paused. */
    var lastFrame: Option<real>

    /** The cursor stays in range, the speed is one of the positive multipliers, and frames are timed only while playing. */
    ghost predicate Valid()
      reads this
    {
      && 0.0 <= currentTime <= duration
      && playbackSpeed > 0.0
      && (isPlaying <==> lastFrame.Some?)
    }

    /** A fresh hook: cursor 0, paused, speed 1. */
    constructor (duration: real)
      ensures this.duration == duration
      ensures currentTime == 0.0 && !isPlaying && playbackSpeed == 1.0 && lastFrame == None
      ensures duration >= 0.0 ==> Valid()
    {
      this.duration := duration;
      currentTime := 0.0;
      isPlaying := false;
      playbackSpeed := 1.0;
      lastFrame := None;
    }

    /** The cursor update of one animation frame that lasted `elapsed` seconds. */
    method Tick(elapsed: real)
      requires isPlaying && 0.0 <= currentTime <= duration && elapsed >= 0.0 && playbackSpeed >= 0.0
      modifies this`currentTime, this`isPlaying
      ensures Step(currentTime, isPlaying) == Advance(old(currentTime), elapsed * playbackSpeed, duration)
      ensures old(currentTime) <= currentTime <= duration
    {
      var newTime := currentTime + elapsed * playbackSpeed;
      if newTime >= duration {
        isPlaying := false;
        currentTime := duration;
      } else {
        currentTime := newTime;
      }
    }

    /**
     * One animation frame at timestamp `now` (milliseconds): the time since the
     * previous frame is applied, then `now` becomes the previous frame; when
     * the frame ended playback the frame timer is dropped.
     */
    method Animate(now: real)
      requires Valid() && isPlaying && lastFrame.value <= now
      modifies this
      ensures Valid()
      ensures Step(currentTime, isPlaying) ==
              Advance(old(currentTime), (now - old(lastFrame).value) / 1000.0 * playbackSpeed, duration)
      ensures lastFrame == if isPlaying then Some(now) else None
      ensures playbackSpeed == old(playbackSpeed)
    {
      if lastFrame.Some? {
        var deltaTime := (now - lastFrame.value) / 1000.0;
        Tick(deltaTime);
      }
      lastFrame := Some(now);
      if !isPlaying {
        lastFrame := None;
      }
    }

    /**
     * Play/pause button at timestamp `now`: a cursor at or past the end goes
     * back to 0 first; resuming times the next frame from `now`, pausing drops
     * the frame timer.
     */
    method TogglePlay(now: real)
      requires Valid()
      modifies this
      ensures Valid()
      ensures isPlaying == !old(isPlaying)
      ensures currentTime == if old(currentTime) >= duration then 0.0 else old(currentTime)
      ensures lastFrame == if isPlaying then Some(now) else None
      ensures playbackSpeed == old(playbackSpeed)
    {
      if currentTime >= duration {
        currentTime := 0.0;
      }
      isPlaying := !isPlaying;
      lastFrame := if isPlaying then Some(now) else None;
    }

    /** Stop button: paused with the cursor back at 0. */
    method Stop()
      requires Valid()
      modifies this
      ensures Valid()
      ensures !isPlaying && currentTime == 0.0 && lastFrame == None
      ensures playbackSpeed == old(playbackSpeed)
    {
      isPlaying := false;
      currentTime := 0.0;
      lastFrame := None;
    }

    /** Moving the slider: the cursor jumps to the clamped target; playing or not is unchanged. */
    method Seek(time: real)
      requires Valid()
      modifies this`currentTime
      ensures Valid()
      ensures currentTime == Clamp(time, duration)
    {
      currentTime := Clamp(time, duration);
    }

    /**
     * Speed buttons at timestamp `now`: a new speed applies from the next frame
     * on; while playing, a change restarts frame timing at `now`.
     */
    method SetPlaybackSpeed(speed: real, now: real)
      requires Valid() && speed > 0.0
      modifies this
      ensures Valid()
      ensures playbackSpeed == speed
      ensures currentTime == old(currentTime) && isPlaying == old(isPlaying)
      ensures lastFrame == if isPlaying && speed != old(playbackSpeed) then Some(now) else old(lastFrame)
    {
      var changed := speed != playbackSpeed;
      playbackSpeed := speed;
      if changed && isPlaying {
        lastFrame := Some(now);
      }
    }
  }
}
