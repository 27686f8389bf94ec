/*
 * The line pattern of WSJT-X_to_ADIF.py,
 *   (\d{6})_(\d{6})\s+([\d.]+)\s+(Rx|Tx)\s+(\w+)\s+(-?\d+)\s+(-?\d+\.\d+)\s+(\d+)\s+(.*)
 * matched with `re.match` against the stripped line. Every token ends
 * where the next one cannot begin, so the engine never backtracks and the
 * match is the left-to-right reading done by MatchLine.
 */
module AdifGrammar {
  import opened PyText
  import opened PyRegex
  import opened WsjtxLine

  /** The nine groups of a matching line, as text. */
  datatype RawLine = RawLine(
    date: string, time: string, freq: string, direction: string, mode: string,
    signal: string, dt: string, offset: string, message: string)

  /** What each group can hold. */
  predicate WellFormed(r: RawLine) {
    && |r.date| == 6 && AllIn(r.date, Digit)
    && |r.time| == 6 && AllIn(r.time, Digit)
    && r.freq != [] && AllIn(r.freq, DigitOrDot)
    && (r.direction == "Rx" || r.direction == "Tx")
    && r.mode != [] && AllIn(r.mode, Word)
    && IsSignedInt(r.signal)
    && IsSignedPointDecimal(r.dt)
    && r.offset != [] && AllIn(r.offset, Digit)
    && AllIn(r.message, NonNewline)
    && (r.message == [] || !IsSpace(r.message[0]))
  }

  /** `qso_pattern.match(s)`: the groups, or None when `s` does not match. */
  function MatchLine(s: string): (r: Option<RawLine>)
    ensures r.Some? ==> WellFormed(r.value)
  {
    var stamp :- Stamp(s);
    var afterTime :- Gap(stamp.2);
    var freq :- Plus(DigitOrDot, afterTime);
    var radio :- DirectionMode(freq.1);
    var report :- Report(radio.2);
    var afterOffset :- Gap(report.3);
    Some(RawLine(stamp.0, stamp.1, freq.0, radio.0, radio.1, report.0, report.1, report.2,
                 DotStar(afterOffset)))
  }

  /** `qso_pattern.match(line.strip())`. */
  function ScanLine(line: string): (r: Option<RawLine>)
    ensures r.Some? ==> WellFormed(r.value)
  {
    MatchLine(Strip(line))
  }

  /** Seven runs of whitespace, one between each pair of neighbouring groups. */
  predicate Gaps(g: seq<string>) {
    |g| == 7 && forall i :: 0 <= i < 7 ==> g[i] != [] && AllIn(g[i], Space)
  }

  /** The line a WSJT-X decode or transmission prints for `r`, spaced by `g`. */
  function Render(r: RawLine, g: seq<string>): string
    requires Gaps(g)
  {
    r.date + ("_" + (r.time + (g[0] + (r.freq + (g[1] + (r.direction + (g[2] +
    (r.mode + (g[3] + (r.signal + (g[4] + (r.dt + (g[5] + (r.offset + (g[6] +
    r.message)))))))))))))))
  }

  /** Any well-formed line reads back as its own groups, whatever the spacing. */
  lemma MatchRender(r: RawLine, g: seq<string>)
    requires WellFormed(r) && Gaps(g)
    ensures MatchLine(Render(r, g)) == Some(r)
  {
    var m := g[6] + r.message;
    var rep := g[3] + (r.signal + (g[4] + (r.dt + (g[5] + (r.offset + m)))));
    var radio := g[1] + (r.direction + (g[2] + (r.mode + rep)));
    var fr := r.freq + radio;
    var afterStamp := g[0] + fr;
    assert Render(r, g) == r.date + ("_" + (r.time + afterStamp));
    StampOn(r.date, r.time, afterStamp);
    GapOn(g[0], fr);
    FreqOn(r.freq, radio);
    DirectionModeOn(g[1], r.direction, g[2], r.mode, rep);
    ReportOn(g[3], r.signal, g[4], r.dt, g[5], r.offset, m);
    MessageOn(g[6], r.message);
    MatchSteps(Render(r, g), r, afterStamp, fr, radio, rep, m);
  }

  lemma FreqOn(freq: string, b: string)
    requires freq != [] && AllIn(freq, DigitOrDot)
    requires b != [] && IsSpace(b[0])
    ensures Plus(DigitOrDot, freq + b) == Some((freq, b))
  {
    SpaceEndsToken(b[0]);
    PlusOn(DigitOrDot, freq, b);
  }

  lemma MessageOn(w: string, message: string)
    requires w != [] && AllIn(w, Space)
    requires AllIn(message, NonNewline) && (message == [] || !IsSpace(message[0]))
    ensures Gap(w + message) == Some(message) && DotStar(message) == message
  {
    GapOn(w, message);
    assert message + [] == message;
    DotStarOn(message, []);
  }

  lemma MatchSteps(s: string, r: RawLine, afterStamp: string, fr: string, radio: string, rep: string, m: string)
    requires Stamp(s) == Some((r.date, r.time, afterStamp)) && Gap(afterStamp) == Some(fr)
    requires Plus(DigitOrDot, fr) == Some((r.freq, radio))
    requires DirectionMode(radio) == Some((r.direction, r.mode, rep))
    requires Report(rep) == Some((r.signal, r.dt, r.offset, m))
    requires Gap(m) == Some(r.message) && DotStar(r.message) == r.message
    ensures MatchLine(s) == Some(r)
  {
  }

  /** A line as read from the file, with any indentation and trailing
    * whitespace (its line feed among it), reads back as its own groups
    * when its message ends in a printing character. */
  lemma ScanRender(lead: string, r: RawLine, g: seq<string>, trail: string)
    requires WellFormed(r) && Gaps(g)
    requires r.message != [] && !IsSpace(r.message[|r.message| - 1])
    requires AllIn(lead, Space) && AllIn(trail, Space)
    ensures ScanLine(lead + Render(r, g) + trail) == Some(r)
  {
    var line := Render(r, g);
    assert line[0] == r.date[0];
    assert line[|line| - 1] == r.message[|r.message| - 1];
    StripPadded(lead, line, trail);
    MatchRender(r, g);
  }
}
