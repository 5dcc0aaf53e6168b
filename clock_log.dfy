/**
 * What the two offline seven-segment log replayers share: the clock's pin
 * wiring, the text drawing of one digit, the "active digit" test and the
 * last-write-wins pin map built from log entries.
 */
module ClockLog {
  import GpioParser

  type LogEntry = GpioParser.LogEntry

  /** Pins of the segments a, b, c, d, e, f, g, dp, in that order. */
  const Segments: seq<int> := [2, 3, 4, 17, 27, 22, 10, 9]
  /** Pins of the digit selects DIG1..DIG4. */
  const Digits: seq<int> := [11, 5, 6, 13]

  /** `state.get(pin, default)`. */
  function Get(state: map<int, int>, pin: int, default: int): int {
    if pin in state then state[pin] else default
  }

  /** Three rows of three characters each. */
  predicate IsGrid(rows: seq<string>) {
    |rows| == 3 && forall i :: 0 <= i < 3 ==> |rows[i]| == 3
  }

  /** The segments a..g read back off a drawn digit by where their strokes sit. */
  function ReadSegments(rows: seq<string>): seq<bool>
    requires IsGrid(rows)
  {
    [rows[0][1] == '_', rows[1][2] == '|', rows[2][2] == '|', rows[2][1] == '_',
     rows[2][0] == '|', rows[1][0] == '|', rows[1][1] == '_']
  }

  /** The digit 8 with every stroke drawn: each cell's stroke, blank at the corners. */
  const Stencil: seq<string> := [" _ ", "|_|", "|_|"]

  /** Every cell shows its stroke from the stencil or is blank. */
  predicate Stencilled(rows: seq<string>)
    requires IsGrid(rows)
  {
    forall i, j :: 0 <= i < 3 && 0 <= j < 3 ==> rows[i][j] == Stencil[i][j] || rows[i][j] == ' '
  }

  /**
   * `draw_digit`: three rows of text showing the lit segments (the decimal
   * point is not drawn). The drawing is the stencil with the unlit strokes
   * blanked: every stroke reads back as the flag it was drawn from, and the
   * corners stay blank.
   */
  function DrawDigit(a: bool, b: bool, c: bool, d: bool, e: bool, f: bool, g: bool, dp: bool): (rows: seq<string>)
    ensures IsGrid(rows)
    ensures (rows[0] == " _ ") == a
    ensures ReadSegments(rows) == [a, b, c, d, e, f, g]
    ensures Stencilled(rows)
  {
    var line1 := if a then " _ " else "   ";
    var line2 := [if f then '|' else ' ', if g then '_' else ' ', if b then '|' else ' '];
    var line3 := [if e then '|' else ' ', if d then '_' else ' ', if c then '|' else ' '];
    [line1, line2, line3]
  }

  /** A stencilled grid is determined by the segments it shows: two that read the same are the same. */
  lemma StencilDetermines(rows: seq<string>, other: seq<string>)
    requires IsGrid(rows) && IsGrid(other) && Stencilled(rows) && Stencilled(other)
    requires ReadSegments(rows) == ReadSegments(other)
    ensures rows == other
  {
    forall i | 0 <= i < 3
      ensures rows[i] == other[i]
    {
      forall j | 0 <= j < 3
        ensures rows[i][j] == other[i][j]
      {
        assert Stencil[0][0] == ' ' && Stencil[0][2] == ' ';
      }
    }
  }

  /** `"\n".join(lines)`. */
  function JoinLines(lines: seq<string>): string
    decreases |lines|
  {
    if |lines| == 0 then ""
    else if |lines| == 1 then lines[0]
    else lines[0] + "\n" + JoinLines(lines[1..])
  }

  /** The three rows of an eleven-character picture. */
  function Rows(text: string): (rows: seq<string>)
    requires |text| == 11
    ensures IsGrid(rows)
  {
    [text[0..3], text[4..7], text[8..11]]
  }

  /** Joining a grid gives eleven characters that split back into the same rows. */
  lemma JoinGrid(rows: seq<string>)
    requires IsGrid(rows)
    ensures |JoinLines(rows)| == 11
    ensures JoinLines(rows)[3] == '\n' && JoinLines(rows)[7] == '\n'
    ensures Rows(JoinLines(rows)) == rows
  {
    var tail := rows[1..];
    assert tail[1..] == [rows[2]];
    assert JoinLines(tail[1..]) == rows[2];
    assert JoinLines(tail) == rows[1] + "\n" + rows[2];
    var text := JoinLines(rows);
    assert text == rows[0] + "\n" + rows[1] + "\n" + rows[2];
    assert text[0..3] == rows[0];
    assert text[4..7] == rows[1];
    assert text[8..11] == rows[2];
  }

  /** The joined picture of one digit drawn from the flags of a..g and dp: the stencil with the unlit strokes blanked, in three lines. */
  function Picture(lit: seq<bool>): (text: string)
    requires |lit| == 8
    ensures |text| == 11 && text[3] == '\n' && text[7] == '\n'
    ensures ReadSegments(Rows(text)) == lit[..7]
    ensures Stencilled(Rows(text))
  {
    var rows := DrawDigit(lit[0], lit[1], lit[2], lit[3], lit[4], lit[5], lit[6], lit[7]);
    JoinGrid(rows);
    JoinLines(rows)
  }

  /** `[pin]` when the digit-select pin reads 0 (a missing pin reads 1), else nothing. */
  function IfActive(pin: int, state: map<int, int>): seq<int> {
    if Get(state, pin, 1) == 0 then [pin] else []
  }

  /** `active_digits`: the digit selects pulled low, in DIG1..DIG4 order. */
  function ActiveDigits(state: map<int, int>): (r: seq<int>)
    ensures forall p :: p in r <==> p in Digits && Get(state, p, 1) == 0
    ensures r == [] <==> forall i :: 0 <= i < 4 ==> Get(state, Digits[i], 1) != 0
  {
    IfActive(Digits[0], state) + IfActive(Digits[1], state) + IfActive(Digits[2], state) + IfActive(Digits[3], state)
  }

  /** Each pin mapped to the value of its last entry in `logs`. */
  function PinValues(logs: seq<LogEntry>): map<int, int>
    decreases |logs|
  {
    if logs == [] then map[]
    else
      var n := |logs| - 1;
      PinValues(logs[..n])[logs[n].pin := logs[n].value]
  }

  /** The pins of the map are the pins the entries name, and each carries the value of its last entry. */
  lemma {:induction false} PinValuesLastWrite(logs: seq<LogEntry>, p: int)
    ensures p in PinValues(logs) <==> exists i :: 0 <= i < |logs| && logs[i].pin == p
    ensures forall i :: 0 <= i < |logs| && logs[i].pin == p &&
                        (forall j :: i < j < |logs| ==> logs[j].pin != p) ==>
              p in PinValues(logs) && PinValues(logs)[p] == logs[i].value
    decreases |logs|
  {
    if logs != [] {
      var n := |logs| - 1;
      PinValuesLastWrite(logs[..n], p);
      forall i | 0 <= i < n
        ensures logs[..n][i] == logs[i]
      {
      }
    }
  }

  /** Entries of a later stretch of the log override those of an earlier one. */
  lemma {:induction false} PinValuesAppend(first: seq<LogEntry>, second: seq<LogEntry>)
    ensures PinValues(first + second) == PinValues(first) + PinValues(second)
    decreases |second|
  {
    if second == [] {
      assert first + second == first;
    } else {
      var n := |second| - 1;
      PinValuesAppend(first, second[..n]);
      assert (first + second)[..|first + second| - 1] == first + second[..n];
    }
  }

  /** One emitted frame of the text replay: its time stamp and its picture. */
  datatype Shot = Shot(time: real, picture: string)

  function Abs(x: real): real {
    if x < 0.0 then -x else x
  }
}
