/*
 * The line pattern of WSJT-X_reader.py,
 *   (?P<date>\d{6})_(?P<time>\d{6})\s+(?P<freq>\d+\.\d+)\s+(?P<txrx>Rx|Tx)\s+(?P<mode>\w+)\s+
 *   (?P<signal>-?\d+)\s+(?P<dt>-?\d+\.\d+)\s+(?P<offset>\d+)\s+(?P<message>.+)
 * matched with `re.match` against the line as read, line feed included.
 * Up to the offset no token can give characters back to its predecessor;
 * the final `\s+(.+)` can, and MessageTail follows the engine there.
 */
module ReaderGrammar {
  import opened PyText
  import opened PyRegex
  import opened WsjtxLine

  /** `match.groupdict()` of a matching line. */
  datatype Groups = Groups(
    date: string, time: string, freq: string, txrx: string, mode: string,
    signal: string, dt: string, offset: string, message: string)

  /** What each group can hold. */
  predicate WellFormed(r: Groups) {
    && |r.date| == 6 && AllIn(r.date, Digit)
    && |r.time| == 6 && AllIn(r.time, Digit)
    && IsPointDecimal(r.freq)
    && (r.txrx == "Rx" || r.txrx == "Tx")
    && r.mode != [] && AllIn(r.mode, Word)
    && IsSignedInt(r.signal)
    && IsSignedPointDecimal(r.dt)
    && r.offset != [] && AllIn(r.offset, Digit)
    && r.message != [] && AllIn(r.message, NonNewline)
  }

  /** `\s+` shortened to end at index j, so that `.+` starts at s[j]; tried
    * for j = |s| - 1 down to 1 on a text that is all whitespace. Everything
    * after s[j] is a line feed by the time s[j] is tried, so `.+` takes
    * s[j] alone. */
  function GiveBack(s: string, j: nat): (m: Option<string>)
    requires j < |s| && AllIn(s, Space)
    ensures m.Some? <==> exists i :: 1 <= i <= j && s[i] != '\n'
    ensures m.Some? ==> |m.value| == 1 && m.value[0] != '\n' && IsSpace(m.value[0])
  {
    if j == 0 then None
    else if s[j] != '\n' then Some([s[j]])
    else GiveBack(s, j - 1)
  }

  /** `\s+(?P<message>.+)` at the end of the pattern. Normally the message
    * runs from the first printing character to the line feed; when only
    * whitespace is left, the message is one whitespace character given
    * back by `\s+`, or the line does not match at all. */
  function MessageTail(s: string): (m: Option<string>)
    ensures m.Some? <==> s != [] && IsSpace(s[0]) && exists i :: 1 <= i < |s| && s[i] != '\n'
    ensures m.Some? ==> m.value != [] && AllIn(m.value, NonNewline)
    ensures m.Some? && AllIn(s, Space) ==> |m.value| == 1 && IsSpace(m.value[0])
  {
    var w := Span(Space, s);
    if w == 0 then None
    else if w < |s| then
      assert s[w] != '\n';
      Some(DotStar(s[w..]))
    else GiveBack(s, |s| - 1)
  }

  /** `qso_pattern.match(line)`: the groups, or None when it does not match. */
  function MatchLine(line: string): (r: Option<Groups>)
    ensures r.Some? ==> WellFormed(r.value)
  {
    var stamp :- Stamp(line);
    var afterTime :- Gap(stamp.2);
    var freq :- PointDecimal(afterTime);
    var radio :- DirectionMode(freq.1);
    var report :- Report(radio.2);
    var message :- MessageTail(report.3);
    Some(Groups(stamp.0, stamp.1, freq.0, radio.0, radio.1, report.0, report.1, report.2, message))
  }

  /** The line is matched as read, not stripped: an indented line fails. */
  lemma IndentedUnmatched(line: string)
    requires line != [] && IsSpace(line[0])
    ensures MatchLine(line) == None
  {
    SpaceEndsToken(line[0]);
    assert Stamp(line) == None;
  }

  /** Seven runs of whitespace, one between each pair of neighbouring groups. */
  predicate Gaps(g: seq<string>) {
    |g| == 7 && forall i :: 0 <= i < 7 ==> g[i] != [] && AllIn(g[i], Space)
  }

  /** The line WSJT-X writes for `r`, spaced by `g` and ended by `eol`. */
  function Render(r: Groups, g: seq<string>, eol: string): string
    requires Gaps(g)
  {
    r.date + ("_" + (r.time + (g[0] + (r.freq + (g[1] + (r.txrx + (g[2] +
    (r.mode + (g[3] + (r.signal + (g[4] + (r.dt + (g[5] + (r.offset + (g[6] +
    (r.message + eol))))))))))))))))
  }

  /** A message that starts with a printing character is read back exactly. */
  lemma MessageTailOn(g: string, message: string, eol: string)
    requires g != [] && AllIn(g, Space)
    requires message != [] && !IsSpace(message[0]) && AllIn(message, NonNewline)
    requires eol == [] || eol[0] == '\n'
    ensures MessageTail(g + (message + eol)) == Some(message)
  {
    var s := g + (message + eol);
    SpanAfter(Space, g, message + eol);
    SpanUnique(Space, message + eol, 0);
    assert s[|g|..] == message + eol;
    DotStarOn(message, eol);
  }

  /** Any well-formed line whose message starts with a printing character
    * reads back as its own groups, whatever the spacing, with or without
    * its line feed. */
  lemma MatchRender(r: Groups, g: seq<string>, eol: string)
    requires WellFormed(r) && Gaps(g) && !IsSpace(r.message[0])
    requires eol == [] || eol[0] == '\n'
    ensures MatchLine(Render(r, g, eol)) == Some(r)
  {
    var m := g[6] + (r.message + eol);
    var rep := g[3] + (r.signal + (g[4] + (r.dt + (g[5] + (r.offset + m)))));
    var radio := g[1] + (r.txrx + (g[2] + (r.mode + rep)));
    var fr := r.freq + radio;
    var afterStamp := g[0] + fr;
    assert Render(r, g, eol) == r.date + ("_" + (r.time + afterStamp));
    assert IsDigit(r.freq[0]);
    StampOn(r.date, r.time, afterStamp);
    GapOn(g[0], fr);
    SpaceEndsToken(radio[0]);
    PointDecimalOn(r.freq, radio);
    DirectionModeOn(g[1], r.txrx, g[2], r.mode, rep);
    ReportOn(g[3], r.signal, g[4], r.dt, g[5], r.offset, m);
    MessageTailOn(g[6], r.message, eol);
    MatchSteps(Render(r, g, eol), r, afterStamp, fr, radio, rep, m);
  }

  lemma MatchSteps(s: string, r: Groups, afterStamp: string, fr: string, radio: string, rep: string, m: string)
    requires Stamp(s) == Some((r.date, r.time, afterStamp)) && Gap(afterStamp) == Some(fr)
    requires PointDecimal(fr) == Some((r.freq, radio))
    requires DirectionMode(radio) == Some((r.txrx, r.mode, rep))
    requires Report(rep) == Some((r.signal, r.dt, r.offset, m))
    requires MessageTail(m) == Some(r.message)
    ensures MatchLine(s) == Some(r)
  {
  }

  /** After the offset, one space and the line feed do not match, while
    * two spaces and the line feed do, with a message of one space. */
  lemma BlankMessages()
    ensures MessageTail(" \n") == None
    ensures MessageTail("  \n") == Some(" ")
  {
    assert Span(Space, " \n") == 2;
    assert Span(Space, "  \n") == 3;
  }
}
