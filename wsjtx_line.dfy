/*
 * The parts of a WSJT-X ALL.TXT line that both scripts' patterns read the
 * same way: the time stamp `(\d{6})_(\d{6})`, then, after the frequency,
 * `\s+(Rx|Tx)\s+(\w+)` and `\s+(-?\d+)\s+(-?\d+\.\d+)\s+(\d+)`. Each
 * stage returns its groups and the text after them.
 */
module WsjtxLine {
  import opened PyText
  import opened PyRegex

  /** `(\d{6})_(\d{6})`: the date and time groups, and the rest. */
  function Stamp(s: string): (r: Option<(string, string, string)>)
    ensures r.Some? ==> |r.value.0| == 6 && AllIn(r.value.0, Digit)
                        && |r.value.1| == 6 && AllIn(r.value.1, Digit)
  {
    var date :- Repeat(Digit, 6, s);
    var afterDate :- Lit("_", date.1);
    var time :- Repeat(Digit, 6, afterDate);
    Some((date.0, time.0, time.1))
  }

  /** `\s+(Rx|Tx)\s+(\w+)`: the direction and mode groups, and the rest. */
  function DirectionMode(s: string): (r: Option<(string, string, string)>)
    ensures r.Some? ==> (r.value.0 == "Rx" || r.value.0 == "Tx")
                        && r.value.1 != [] && AllIn(r.value.1, Word)
  {
    var afterGap :- Gap(s);
    var direction :- Direction(afterGap);
    var afterDirection :- Gap(direction.1);
    var mode :- Plus(Word, afterDirection);
    Some((direction.0, mode.0, mode.1))
  }

  /** `\s+(-?\d+)\s+(-?\d+\.\d+)\s+(\d+)`: the signal report, time offset
    * and audio frequency offset groups, and the rest. */
  function Report(s: string): (r: Option<(string, string, string, string)>)
    ensures r.Some? ==> IsSignedInt(r.value.0) && IsSignedPointDecimal(r.value.1)
                        && r.value.2 != [] && AllIn(r.value.2, Digit)
  {
    var afterGap :- Gap(s);
    var signal :- SignedInt(afterGap);
    var afterSignal :- Gap(signal.1);
    var dt :- SignedPointDecimal(afterSignal);
    var afterDt :- Gap(dt.1);
    var offset :- Plus(Digit, afterDt);
    Some((signal.0, dt.0, offset.0, offset.1))
  }

  lemma StampOn(date: string, time: string, b: string)
    requires |date| == 6 && AllIn(date, Digit) && |time| == 6 && AllIn(time, Digit)
    ensures Stamp(date + ("_" + (time + b))) == Some((date, time, b))
  {
    RepeatOn(Digit, date, "_" + (time + b));
    LitOn("_", time + b);
    RepeatOn(Digit, time, b);
  }

  lemma DirectionModeOn(g1: string, direction: string, g2: string, mode: string, b: string)
    requires g1 != [] && AllIn(g1, Space) && g2 != [] && AllIn(g2, Space)
    requires direction == "Rx" || direction == "Tx"
    requires mode != [] && AllIn(mode, Word)
    requires b == [] || IsSpace(b[0])
    ensures DirectionMode(g1 + (direction + (g2 + (mode + b)))) == Some((direction, mode, b))
  {
    var s2 := mode + b;
    var s1 := g2 + s2;
    var s0 := direction + s1;
    assert !IsSpace(s0[0]) && !IsSpace(s2[0]);
    GapOn(g1, s0);
    DirectionOn(direction, s1);
    GapOn(g2, s2);
    if b != [] { SpaceEndsToken(b[0]); }
    PlusOn(Word, mode, b);
    DirectionModeSteps(g1 + s0, s0, direction, s1, s2, mode, b);
  }

  lemma DirectionModeSteps(s: string, s0: string, direction: string, s1: string, s2: string, mode: string, b: string)
    requires Gap(s) == Some(s0) && Direction(s0) == Some((direction, s1))
    requires Gap(s1) == Some(s2) && Plus(Word, s2) == Some((mode, b))
    ensures DirectionMode(s) == Some((direction, mode, b))
  {
  }

  lemma ReportOn(g1: string, signal: string, g2: string, dt: string, g3: string, offset: string, b: string)
    requires g1 != [] && AllIn(g1, Space) && g2 != [] && AllIn(g2, Space) && g3 != [] && AllIn(g3, Space)
    requires IsSignedInt(signal) && IsSignedPointDecimal(dt) && offset != [] && AllIn(offset, Digit)
    requires b == [] || IsSpace(b[0])
    ensures Report(g1 + (signal + (g2 + (dt + (g3 + (offset + b)))))) == Some((signal, dt, offset, b))
  {
    var s5 := offset + b;
    var s4 := g3 + s5;
    var s3 := dt + s4;
    var s2 := g2 + s3;
    var s1 := signal + s2;
    assert signal[0] == '-' || IsDigit(signal[0]);
    assert dt[0] == '-' || IsDigit(dt[0]);
    assert !IsSpace(s1[0]) && !IsSpace(s3[0]) && !IsSpace(s5[0]);
    SpaceEndsToken(s2[0]);
    SpaceEndsToken(s4[0]);
    if b != [] { SpaceEndsToken(b[0]); }
    GapOn(g1, s1);
    SignedIntOn(signal, s2);
    GapOn(g2, s3);
    SignedPointDecimalOn(dt, s4);
    GapOn(g3, s5);
    PlusOn(Digit, offset, b);
    ReportSteps(g1 + s1, s1, signal, s2, s3, dt, s4, s5, offset, b);
  }

  lemma ReportSteps(s: string, s1: string, signal: string, s2: string, s3: string, dt: string,
                    s4: string, s5: string, offset: string, b: string)
    requires Gap(s) == Some(s1) && SignedInt(s1) == Some((signal, s2))
    requires Gap(s2) == Some(s3) && SignedPointDecimal(s3) == Some((dt, s4))
    requires Gap(s4) == Some(s5) && Plus(Digit, s5) == Some((offset, b))
    ensures Report(s) == Some((signal, dt, offset, b))
  {
  }
}
