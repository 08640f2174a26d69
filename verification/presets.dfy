/**
  The velocity window and its preset buttons (main.ts, lines 218-322): each
  preset sets the minimum and maximum speed and writes both into their input
  fields; the fields' change handlers read numbers back with `parseInt`,
  falling back to 0.
 */
module Presets {
  import opened Base
  import opened JsText
  import opened Matrices
  import opened ModelBuilder

  datatype Preset = Commercial | Concorde | Extreme

  /** The settings the solve button reads, and the texts of the two speed fields. */
  datatype Controls = Controls(relativeShift: int, speedMin: int, speedMax: int, minField: string, maxField: string)

  /** The window a preset sets, in km/h: passenger aircraft, supersonic, and the extreme range. */
  function PresetWindow(p: Preset): (w: (int, int))
    ensures 0 < w.0 <= w.1
  {
    match p
    case Commercial => (500, 900)
    case Concorde => (500, 2500)
    case Extreme => (13, 7200)
  }

  /** A preset button: the window and the field texts change, the time shift does not. */
  function ApplyPreset(c: Controls, p: Preset): (r: Controls)
    ensures r.relativeShift == c.relativeShift
    ensures (r.speedMin, r.speedMax) == PresetWindow(p)
  {
    var (lo, hi) := PresetWindow(p);
    c.(speedMin := lo, speedMax := hi, minField := IntToString(lo), maxField := IntToString(hi))
  }

  /**
    `parseNumericInput`: `parseInt(value, 10) || 0`.  The field reads as 0
    exactly when no digit follows its leading white space and optional sign,
    or the number there is zero.
   */
  function ParseNumericInput(value: string): (r: int)
    ensures r == 0 <==> DigitPrefixLen(Unsigned(DropLeading(value))) == 0 || ParseInt(value) == Some(0)
  {
    ParseIntNaNIff(value);
    match ParseInt(value)
    case None => 0
    case Some(v) => v
  }

  /** A field holding the decimal text of an integer, followed by anything but a digit, reads as that integer. */
  lemma ParseNumericOfDecimal(i: int, t: string)
    requires |t| == 0 || !IsDigit(t[0])
    ensures ParseNumericInput(IntToString(i) + t) == i
  {
    ParseIntOfDecimal(i, t);
  }

  /** After a preset, the field texts read back as the window it set. */
  lemma PresetFieldsReadBack(c: Controls, p: Preset)
    ensures var r := ApplyPreset(c, p);
      ParseNumericInput(r.minField) == r.speedMin && ParseNumericInput(r.maxField) == r.speedMax
  {
    var r := ApplyPreset(c, p);
    assert r.minField + "" == IntToString(r.speedMin);
    assert r.maxField + "" == IntToString(r.speedMax);
    ParseNumericOfDecimal(r.speedMin, "");
    ParseNumericOfDecimal(r.speedMax, "");
  }

  /**
    Every preset window starts above zero, so under a preset every edge of
    the model has positive speed and its cost is its duration.
   */
  lemma PresetCostIsDuration(p: Preset, speed: Matrix<int>, duration: Matrix<int>, i: nat, j: nat)
    requires i < |speed| && j < |speed[i]| && i < |duration| && j < |duration[i]|
    requires Kept(speed, PresetWindow(p).0, PresetWindow(p).1, i, j)
    ensures speed[i][j] > 0
    ensures Cost(speed, duration, i, j) == duration[i][j]
  {
  }
}
