/**
 * Pin-state reconstruction of the playback front end: the GPIO event log is
 * folded, entry by entry, up to the playback cursor, giving for every pin the
 * last level (or duty cycle) and the last PWM frequency written to it.
 */
module GpioParser {
  import opened Wrappers

  /** One record of the simulator's event log. */
  datatype LogEntry = LogEntry(time: real, action: string, pin: int, value: int)

  /** The replayed state of one pin; `frequency` stays absent until a PWM frequency is seen. */
  datatype PinStateValue = PinStateValue(value: int, frequency: Option<int>)

  /** The whole replayed state: pin number to its state. */
  type PinState = map<int, PinStateValue>

  /** Actions that write the pin's level or duty cycle. */
  predicate SetsValue(action: string) {
    action == "GPIO.output" || action == "PWM.ChangeDutyCycle" || action == "PWM.start"
  }

  /** Actions that write the pin's PWM frequency. */
  predicate SetsFrequency(action: string) {
    action == "PWM.init" || action == "PWM.ChangeFrequency"
  }

  /** The action that forces the pin's level to zero. */
  predicate Stops(action: string) {
    action == "PWM.stop"
  }

  /** Actions the replay reacts to; every other action (`GPIO.setup`, ...) is skipped. */
  predicate Recognised(action: string) {
    SetsValue(action) || SetsFrequency(action) || Stops(action)
  }

  /** The state a recognised entry starts from: the pin's state, or `{value: 0}` when absent. */
  function Current(state: PinState, pin: int): PinStateValue {
    if pin in state then state[pin] else PinStateValue(0, None)
  }

  /** The effect of one log entry on the replayed state. */
  function Apply(state: PinState, e: LogEntry): (r: PinState)
    ensures r.Keys == if Recognised(e.action) then state.Keys + {e.pin} else state.Keys
    ensures forall p :: p in state && p != e.pin ==> r[p] == state[p]
    ensures forall p :: p in r ==>
              r[p].value == if WritesValue(e, p) then ValueWritten(e) else Current(state, p).value
    ensures forall p :: p in r ==>
              r[p].frequency == if WritesFrequency(e, p) then Some(e.value) else Current(state, p).frequency
  {
    var cur := Current(state, e.pin);
    if SetsValue(e.action) then state[e.pin := cur.(value := e.value)]
    else if SetsFrequency(e.action) then state[e.pin := cur.(frequency := Some(e.value))]
    else if Stops(e.action) then state[e.pin := cur.(value := 0)]
    else state
  }

  /** `state` with every entry of `logs` applied in log order. */
  function Replay(state: PinState, logs: seq<LogEntry>): PinState
    decreases |logs|
  {
    if logs == [] then state else Apply(Replay(state, logs[..|logs| - 1]), logs[|logs| - 1])
  }

  /** How many entries the scan applies: the longest prefix whose entries are all at or before `t`. */
  function AppliedCount(logs: seq<LogEntry>, t: real): (n: nat)
    ensures n <= |logs|
    ensures forall i :: 0 <= i < n ==> logs[i].time <= t
    ensures n < |logs| ==> logs[n].time > t
  {
    if logs == [] || logs[0].time > t then 0 else 1 + AppliedCount(logs[1..], t)
  }

  /** The reconstructed pin state at time `t`: the applied prefix replayed from the empty map. */
  function PinStateAt(logs: seq<LogEntry>, t: real): PinState {
    Replay(map[], logs[..AppliedCount(logs, t)])
  }

  /**
   * One entry of the scan, updating `state` in place: a recognised action
   * first creates `{value: 0}` for an absent pin, then writes its field.
   */
  method ApplyEntry(state: PinState, log: LogEntry) returns (state': PinState)
    ensures state' == Apply(state, log)
  {
    state' := state;
    if SetsValue(log.action) {
      if log.pin !in state' {
        state' := state'[log.pin := PinStateValue(0, None)];
      }
      state' := state'[log.pin := state'[log.pin].(value := log.value)];
    }
    if SetsFrequency(log.action) {
      if log.pin !in state' {
        state' := state'[log.pin := PinStateValue(0, None)];
      }
      state' := state'[log.pin := state'[log.pin].(frequency := Some(log.value))];
    }
    if Stops(log.action) {
      if log.pin !in state' {
        state' := state'[log.pin := PinStateValue(0, None)];
      }
      state' := state'[log.pin := state'[log.pin].(value := 0)];
    }
  }

  /** The scan of the front end: stops at the first entry later than `currentTime`. */
  method ParseGpioState(logs: seq<LogEntry>, currentTime: real) returns (state: PinState)
    ensures state == PinStateAt(logs, currentTime)
  {
    state := map[];
    var i := 0;
    while i < |logs|
      invariant 0 <= i <= |logs|
      invariant forall j :: 0 <= j < i ==> logs[j].time <= currentTime
      invariant state == Replay(map[], logs[..i])
    {
      var log := logs[i];
      if log.time > currentTime {
        break;
      }
      assert logs[..i + 1][..i] == logs[..i];
      state := ApplyEntry(state, log);
      i := i + 1;
    }
    assert i == AppliedCount(logs, currentTime);
  }

  /** The entry names `p` and writes its level: an output, duty-cycle or start write, or a stop. */
  predicate WritesValue(e: LogEntry, p: int) {
    e.pin == p && (SetsValue(e.action) || Stops(e.action))
  }

  /** The level an entry that writes one leaves behind. */
  function ValueWritten(e: LogEntry): int {
    if Stops(e.action) then 0 else e.value
  }

  /** The entry names `p` and writes its PWM frequency. */
  predicate WritesFrequency(e: LogEntry, p: int) {
    e.pin == p && SetsFrequency(e.action)
  }

  /** A pin is a key of the replayed state iff it was a key before or some recognised entry names it. */
  lemma {:induction false} ReplayKeys(state: PinState, logs: seq<LogEntry>, p: int)
    ensures p in Replay(state, logs) <==>
            p in state || exists i :: 0 <= i < |logs| && logs[i].pin == p && Recognised(logs[i].action)
    decreases |logs|
  {
    if logs != [] {
      var n := |logs| - 1;
      var front := logs[..n];
      ReplayKeys(state, front, p);
      if p in Replay(state, logs) && p !in state && p !in Replay(state, front) {
        assert logs[n].pin == p && Recognised(logs[n].action);
      }
      if exists i :: 0 <= i < |logs| && logs[i].pin == p && Recognised(logs[i].action) {
        var i :| 0 <= i < |logs| && logs[i].pin == p && Recognised(logs[i].action);
        if i < n {
          assert front[i] == logs[i];
        }
      }
    }
  }

  /**
   * Last write wins for the level: a pin whose last level-writing entry is
   * entry `i` is replayed with the level that entry wrote.
   */
  lemma {:induction false} ReplayValue(logs: seq<LogEntry>, p: int, i: nat)
    requires i < |logs| && WritesValue(logs[i], p)
    requires forall j :: i < j < |logs| ==> !WritesValue(logs[j], p)
    ensures p in Replay(map[], logs) && Replay(map[], logs)[p].value == ValueWritten(logs[i])
    decreases |logs|
  {
    var n := |logs| - 1;
    if i < n {
      var front := logs[..n];
      assert front[i] == logs[i];
      ReplayValue(front, p, i);
    }
  }

  /** A replayed pin whose level no entry wrote has level 0. */
  lemma {:induction false} ReplayValueUnwritten(logs: seq<LogEntry>, p: int)
    requires p in Replay(map[], logs)
    requires forall i :: 0 <= i < |logs| ==> !WritesValue(logs[i], p)
    ensures Replay(map[], logs)[p].value == 0
    decreases |logs|
  {
    var n := |logs| - 1;
    var front := logs[..n];
    assert forall i :: 0 <= i < n ==> front[i] == logs[i];
    if p in Replay(map[], front) {
      ReplayValueUnwritten(front, p);
    }
  }

  /**
   * Last write wins for the frequency: a pin whose last frequency-writing
   * entry is entry `i` is replayed with the frequency that entry wrote.
   */
  lemma {:induction false} ReplayFrequency(logs: seq<LogEntry>, p: int, i: nat)
    requires i < |logs| && WritesFrequency(logs[i], p)
    requires forall j :: i < j < |logs| ==> !WritesFrequency(logs[j], p)
    ensures p in Replay(map[], logs) && Replay(map[], logs)[p].frequency == Some(logs[i].value)
    decreases |logs|
  {
    var n := |logs| - 1;
    if i < n {
      var front := logs[..n];
      assert front[i] == logs[i];
      ReplayFrequency(front, p, i);
    }
  }

  /** A replayed pin whose frequency no entry wrote has no frequency. */
  lemma {:induction false} ReplayFrequencyUnwritten(logs: seq<LogEntry>, p: int)
    requires p in Replay(map[], logs)
    requires forall i :: 0 <= i < |logs| ==> !WritesFrequency(logs[i], p)
    ensures Replay(map[], logs)[p].frequency == None
    decreases |logs|
  {
    var n := |logs| - 1;
    var front := logs[..n];
    assert forall i :: 0 <= i < n ==> front[i] == logs[i];
    if p in Replay(map[], front) {
      ReplayFrequencyUnwritten(front, p);
    }
  }

  /** Replaying a concatenation is replaying the second part on top of the first. */
  lemma {:induction false} ReplayAppend(state: PinState, first: seq<LogEntry>, second: seq<LogEntry>)
    ensures Replay(state, first + second) == Replay(Replay(state, first), second)
    decreases |second|
  {
    if second == [] {
      assert first + second == first;
    } else {
      var n := |second| - 1;
      ReplayAppend(state, first, second[..n]);
      assert (first + second)[..|first + second| - 1] == first + second[..n];
    }
  }

  /** The replay never forgets a pin. */
  lemma ReplayKeepsKeys(state: PinState, logs: seq<LogEntry>)
    ensures state.Keys <= Replay(state, logs).Keys
  {
    forall p | p in state
      ensures p in Replay(state, logs)
    {
      ReplayKeys(state, logs, p);
    }
  }

  /** Log entries ordered by time, as the simulator writes them. */
  predicate Sorted(logs: seq<LogEntry>) {
    forall i, j :: 0 <= i < j < |logs| ==> logs[i].time <= logs[j].time
  }

  /**
   * A later cursor sees the earlier result folded further over the entries in
   * between; those entries lie in `(t1, t2]` when the log is sorted, and the
   * set of pins only grows.
   */
  lemma LaterQueryExtends(logs: seq<LogEntry>, t1: real, t2: real)
    requires t1 <= t2
    ensures AppliedCount(logs, t1) <= AppliedCount(logs, t2)
    ensures PinStateAt(logs, t2) ==
            Replay(PinStateAt(logs, t1), logs[AppliedCount(logs, t1)..AppliedCount(logs, t2)])
    ensures Sorted(logs) ==>
            forall i :: AppliedCount(logs, t1) <= i < AppliedCount(logs, t2) ==> t1 < logs[i].time <= t2
    ensures PinStateAt(logs, t1).Keys <= PinStateAt(logs, t2).Keys
  {
    var n1, n2 := AppliedCount(logs, t1), AppliedCount(logs, t2);
    assert logs[..n2] == logs[..n1] + logs[n1..n2];
    ReplayAppend(map[], logs[..n1], logs[n1..n2]);
    ReplayKeepsKeys(PinStateAt(logs, t1), logs[n1..n2]);
  }

  /**
   * The scan stops at the first entry later than the cursor, even in an
   * unsorted log: nothing after it is applied.
   */
  lemma StopsAtFirstLater(before: seq<LogEntry>, later: LogEntry, after: seq<LogEntry>, t: real)
    requires forall i :: 0 <= i < |before| ==> before[i].time <= t
    requires later.time > t
    ensures PinStateAt(before + [later] + after, t) == Replay(map[], before)
  {
    var logs := before + [later] + after;
    FirstLaterCount(logs, |before|, t);
    assert logs[..|before|] == before;
  }

  /** The applied count is the index of the first later entry. */
  lemma FirstLaterCount(logs: seq<LogEntry>, k: nat, t: real)
    requires k < |logs| && logs[k].time > t
    requires forall i :: 0 <= i < k ==> logs[i].time <= t
    ensures AppliedCount(logs, t) == k
  {
  }

  /** A cursor before the first entry gives the empty state. */
  lemma BeforeFirstEntryIsEmpty(logs: seq<LogEntry>, t: real)
    requires logs != [] && t < logs[0].time
    ensures PinStateAt(logs, t) == map[]
  {
    assert logs[..0] == [];
  }
}
