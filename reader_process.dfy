/*
 * `process_all_txt` of WSJT-X_reader.py: one pass over the lines of
 * ALL.TXT that counts them and groups the lines mentioning the operator's
 * call into conversations.
 *
 * While `current_conversation` is not None it is the very dict last
 * appended to `conversations`, so the state keeps a flag `current` ("the
 * last conversation is the current one"), and every in-place change to the
 * current conversation replaces the last element of the sequence.
 *
 * The specification functions read the lines from the front, as the
 * loop does: `Run(lines)` is `Run` of all but the last line followed by one
 * `Step` on the last. An exception raised by a step ends the whole pass.
 */
module ReaderProcess {
  import opened PyText
  import opened PyRegex
  import opened ReaderGrammar
  import opened ReaderBand

  /** One dict of `conversations`. */
  datatype Conversation = Conversation(
    startTime: string, partner: string, location: Option<string>, band: string,
    frequencyOffset: string, reportFromMe: Option<string>, reportToMe: Option<string>,
    endTime: Option<string>, messages: seq<string>)

  /** The local variables of the loop; all but `current` are returned. */
  datatype State = State(
    conversations: seq<Conversation>, current: bool,
    contributing: nat, nonContributing: nat, unmatched: nat, total: nat)

  const INITIAL: State := State([], false, 0, 0, 0, 0)

  function Last(cs: seq<Conversation>): Conversation
    requires cs != []
  {
    cs[|cs| - 1]
  }

  /** `cs` with its last element replaced by `c`. */
  function WithLast(cs: seq<Conversation>, c: Conversation): (r: seq<Conversation>)
    requires cs != []
    ensures |r| == |cs| && r[..|cs| - 1] == cs[..|cs| - 1] && Last(r) == c
  {
    cs[..|cs| - 1] + [c]
  }

  /** The current conversation, when there is one, is an element of the list
    * and holds at least one message. */
  predicate Consistent(s: State) {
    s.current ==> s.conversations != [] && Last(s.conversations).messages != []
  }

  /** `current_conversation['messages'][-1]`. */
  function LastMessage(s: State): string
    requires Consistent(s) && s.current
  {
    var ms := Last(s.conversations).messages;
    ms[|ms| - 1]
  }

  // ---- the pieces of one step ----

  /** `float(data['freq'])`: the pattern admits only `\d+\.\d+`, so the
    * conversion never raises. */
  function Frequency(freq: string): (f: Decimal)
    requires IsPointDecimal(freq)
    ensures AllIn(freq, DigitOrDot) && ParseFloat(freq) == Some(f)
  {
    var p := Span(Digit, freq);
    var whole, frac := freq[..p], freq[p + 1..];
    assert freq == whole + "." + frac;
    assert AllIn(whole, Digit) by {
      forall i | 0 <= i < |whole| ensures IsDigit(whole[i]) { assert whole[i] == freq[i]; }
    }
    ParseFloatPoint(whole, frac);
    Decimal(DigitsValue(whole + frac), |frac|)
  }

  /** `f"{data['date']}_{data['time']}"`. */
  function Timestamp(g: Groups): string {
    g.date + "_" + g.time
  }

  /** `parts[1] if parts[0] == MyCall else parts[0]`: IndexError when there
    * is no first token, or the only token is the own call. */
  function Partner(myCall: string, parts: seq<string>): (r: Outcome<string>)
    ensures r.Raised? <==> parts == [] || (parts[0] == myCall && |parts| == 1)
    ensures r.Raised? ==> r.error == IndexError
    ensures r.Done? ==> r.value == parts[0] || (|parts| > 1 && r.value == parts[1])
    ensures r.Done? && parts[0] != myCall ==> r.value != myCall
  {
    if parts == [] then Raised(IndexError)
    else if parts[0] == myCall then
      if |parts| > 1 then Done(parts[1]) else Raised(IndexError)
    else Done(parts[0])
  }

  /** `parts[2] if len(parts) > 2 and parts[2] not in ['73', 'RR73'] else None`. */
  function Location(parts: seq<string>): (r: Option<string>)
    ensures r.Some? <==> |parts| > 2 && parts[2] != "73" && parts[2] != "RR73"
    ensures r.Some? ==> r.value == parts[2]
  {
    if |parts| > 2 && parts[2] != "73" && parts[2] != "RR73" then Some(parts[2]) else None
  }

  /** What lines 54-95 use of a matched line: the stripped message, the
    * time stamp, the band of the frequency and the audio offset. */
  datatype Entry = Entry(message: string, stamp: string, band: string, offset: string)

  /** Lines 54, 63, 69 and 73 for the groups of a matched line. */
  function EntryOf(g: Groups): (e: Entry)
    requires WellFormed(g)
    ensures e.message == Strip(g.message) && e.offset == g.offset
    ensures e.stamp == g.date + "_" + g.time
    ensures e.band == GetBand(Frequency(g.freq))
  {
    Entry(Strip(g.message), Timestamp(g), GetBand(Frequency(g.freq)), g.offset)
  }

  /** The dict built at lines 68-78 for a line that opens a conversation. */
  function Start(myCall: string, e: Entry, parts: seq<string>): (r: Outcome<Conversation>)
    ensures r.Raised? <==> Partner(myCall, parts).Raised?
    ensures r.Done? ==> r.value.messages == [e.message] && r.value.endTime == None
                        && r.value.startTime == e.stamp
                        && r.value.reportToMe == None && r.value.reportFromMe == None
  {
    var partner :- Partner(myCall, parts);
    Done(Conversation(e.stamp, partner, Location(parts), e.band, e.offset, None, None, None, [e.message]))
  }

  /** `t.startswith(c)`. */
  predicate StartsWith(t: string, c: char) {
    t != [] && t[0] == c
  }

  /** A signal report: a token starting with a sign. */
  predicate Signed(t: string) {
    StartsWith(t, '+') || StartsWith(t, '-')
  }

  /** Lines 86-90 as written. `and` binds tighter than `or`, so each test
    * reads `(parts[k] == MyCall and parts[2].startswith('+')) or
    * parts[2].startswith('-')`. */
  function ReportsAsWritten(myCall: string, c: Conversation, parts: seq<string>): Conversation {
    if |parts| >= 3 then
      if (parts[0] == myCall && StartsWith(parts[2], '+')) || StartsWith(parts[2], '-') then
        c.(reportToMe := Some(parts[2]))
      else if (parts[1] == myCall && StartsWith(parts[2], '+')) || StartsWith(parts[2], '-') then
        c.(reportFromMe := Some(parts[2]))
      else c
    else c
  }

  /** Lines 86-90 as intended: a signed third token is the report sent to
    * the operator when the message is addressed to the own call, and the
    * report the operator sends when the own call is the second token. */
  function Reports(myCall: string, c: Conversation, parts: seq<string>): Conversation {
    if |parts| >= 3 && Signed(parts[2]) then
      if parts[0] == myCall then c.(reportToMe := Some(parts[2]))
      else if parts[1] == myCall then c.(reportFromMe := Some(parts[2]))
      else c
    else c
  }

  /** Lines 93-94: a message containing "73" stamps the end time. */
  function Close(c: Conversation, message: string, stamp: string): Conversation {
    if Contains(message, "73") then c.(endTime := Some(stamp)) else c
  }

  /** Lines 86-94, as written, applied to the current conversation. */
  function Finish(myCall: string, c: Conversation, message: string, parts: seq<string>, stamp: string): Conversation {
    Close(ReportsAsWritten(myCall, c, parts), message, stamp)
  }

  /** `current_conversation is None or MyCall not in current_conversation['messages'][-1]`. */
  predicate Opens(myCall: string, s: State)
    requires Consistent(s)
  {
    !s.current || !Contains(LastMessage(s), myCall)
  }

  /** Lines 55-95 for a matched line. */
  function Advance(myCall: string, s: State, e: Entry): Outcome<State>
    requires Consistent(s)
  {
    var message := e.message;
    if !Contains(message, myCall) then
      Done(s.(nonContributing := s.nonContributing + 1))
    else
      var parts := Split(message);
      var open := !Contains(message, "73");
      if Opens(myCall, s) then
        var c :- Start(myCall, e, parts);
        Done(State(s.conversations + [Finish(myCall, c, message, parts, e.stamp)], open,
                   s.contributing + 1, s.nonContributing, s.unmatched, s.total + 1))
      else
        var c := Last(s.conversations);
        var c' := c.(messages := c.messages + [message]);
        Done(State(WithLast(s.conversations, Finish(myCall, c', message, parts, e.stamp)), open,
                   s.contributing + 1, s.nonContributing, s.unmatched, s.total))
  }

  /** The body of the loop (lines 48-95) for one line. */
  function Step(myCall: string, s: State, line: string): Outcome<State>
    requires Consistent(s)
  {
    var m := MatchLine(line);
    if m.None? then Done(s.(unmatched := s.unmatched + 1))
    else Advance(myCall, s, EntryOf(m.value))
  }

  // ---- what the pass keeps true ----

  /** A stored conversation: it has messages, all of them mention the own
    * call, none but the last contains "73", and it has an end time exactly
    * when its last message contains "73". */
  predicate ConversationOk(myCall: string, c: Conversation) {
    && c.messages != []
    && (forall j :: 0 <= j < |c.messages| ==> Contains(c.messages[j], myCall))
    && (forall j :: 0 <= j < |c.messages| - 1 ==> !Contains(c.messages[j], "73"))
    && (c.endTime.Some? <==> Contains(c.messages[|c.messages| - 1], "73"))
  }

  predicate AllOk(myCall: string, cs: seq<Conversation>) {
    forall i :: 0 <= i < |cs| ==> ConversationOk(myCall, cs[i])
  }

  /** Every conversation but the last has ended. */
  predicate ClosedBefore(cs: seq<Conversation>) {
    forall i :: 0 <= i < |cs| - 1 ==> cs[i].endTime.Some?
  }

  /** The invariant of the loop. */
  predicate Good(myCall: string, s: State) {
    && s.total == |s.conversations|
    && AllOk(myCall, s.conversations)
    && ClosedBefore(s.conversations)
    && (s.current <==> s.conversations != [] && Last(s.conversations).endTime.None?)
  }

  lemma GoodConsistent(myCall: string, s: State)
    requires Good(myCall, s)
    ensures Consistent(s)
  {
    if s.current {
      assert ConversationOk(myCall, s.conversations[|s.conversations| - 1]);
    }
  }

  /** The second test at line 66 never decides anything: a conversation
    * opens exactly when none is current. */
  lemma OpensIffNoCurrent(myCall: string, s: State)
    requires Good(myCall, s)
    ensures Consistent(s) && (Opens(myCall, s) <==> !s.current)
  {
    GoodConsistent(myCall, s);
    if s.current {
      var c := Last(s.conversations);
      assert ConversationOk(myCall, c);
      assert Contains(c.messages[|c.messages| - 1], myCall);
    }
  }

  /** The conversation a step leaves behind, from one that holds `ms` and
    * has no end time, after appending `message`. */
  lemma FinishOk(myCall: string, c: Conversation, message: string, parts: seq<string>, stamp: string)
    requires c.messages != [] && c.endTime.None?
    requires forall j :: 0 <= j < |c.messages| ==> Contains(c.messages[j], myCall)
    requires forall j :: 0 <= j < |c.messages| - 1 ==> !Contains(c.messages[j], "73")
    requires c.messages[|c.messages| - 1] == message
    ensures var f := Finish(myCall, c, message, parts, stamp);
            ConversationOk(myCall, f) && f.messages == c.messages
            && (f.endTime.Some? <==> Contains(message, "73"))
  {
    ReportsAsWrittenKeeps(myCall, c, parts);
  }

  /** Opening a conversation keeps the invariant. */
  lemma OpenGood(myCall: string, s: State, c: Conversation, message: string, parts: seq<string>, stamp: string)
    requires Good(myCall, s) && !s.current
    requires c.messages == [message] && c.endTime.None? && Contains(message, myCall)
    ensures Good(myCall, State(s.conversations + [Finish(myCall, c, message, parts, stamp)],
                               !Contains(message, "73"), s.contributing + 1, s.nonContributing,
                               s.unmatched, s.total + 1))
  {
    var f := Finish(myCall, c, message, parts, stamp);
    FinishOk(myCall, c, message, parts, stamp);
    var cs := s.conversations + [f];
    assert forall i :: 0 <= i < |s.conversations| ==> cs[i] == s.conversations[i];
    assert cs[|cs| - 1] == f;
  }

  /** Appending to the current conversation keeps the invariant. */
  lemma AppendGood(myCall: string, s: State, message: string, parts: seq<string>, stamp: string)
    requires Good(myCall, s) && s.current && Contains(message, myCall)
    ensures Consistent(s)
    ensures var c := Last(s.conversations);
            Good(myCall, State(WithLast(s.conversations, Finish(myCall, c.(messages := c.messages + [message]), message, parts, stamp)),
                               !Contains(message, "73"), s.contributing + 1, s.nonContributing,
                               s.unmatched, s.total))
  {
    GoodConsistent(myCall, s);
    var c := Last(s.conversations);
    assert ConversationOk(myCall, c);
    var c' := c.(messages := c.messages + [message]);
    Appended(myCall, c, message);
    FinishOk(myCall, c', message, parts, stamp);
    ReplaceGood(myCall, s, Finish(myCall, c', message, parts, stamp), message);
  }

  /** A stored conversation without an end time, with one more message
    * that mentions the call, is one `Finish` may be applied to. */
  lemma Appended(myCall: string, c: Conversation, message: string)
    requires ConversationOk(myCall, c) && c.endTime.None? && Contains(message, myCall)
    ensures var ms := c.messages + [message];
            && (forall j :: 0 <= j < |ms| ==> Contains(ms[j], myCall))
            && (forall j :: 0 <= j < |ms| - 1 ==> !Contains(ms[j], "73"))
            && ms[|ms| - 1] == message
  {
    var ms := c.messages + [message];
    assert forall j :: 0 <= j < |c.messages| ==> ms[j] == c.messages[j];
  }

  /** Replacing the current conversation by a stored one that has ended
    * exactly when `message` contains "73" keeps the invariant. */
  lemma ReplaceGood(myCall: string, s: State, f: Conversation, message: string)
    requires Good(myCall, s) && s.current && ConversationOk(myCall, f)
    requires f.endTime.Some? <==> Contains(message, "73")
    ensures Good(myCall, State(WithLast(s.conversations, f), !Contains(message, "73"), s.contributing + 1,
                               s.nonContributing, s.unmatched, s.total))
  {
    ReplaceLast(myCall, s.conversations, f);
    var cs := WithLast(s.conversations, f);
    assert |cs| == |s.conversations| && Last(cs) == f;
  }

  lemma ReplaceLast(myCall: string, cs: seq<Conversation>, c: Conversation)
    requires cs != [] && AllOk(myCall, cs) && ClosedBefore(cs) && ConversationOk(myCall, c)
    ensures AllOk(myCall, WithLast(cs, c)) && ClosedBefore(WithLast(cs, c))
  {
    var r := WithLast(cs, c);
    assert forall i :: 0 <= i < |r| - 1 ==> r[i] == cs[i];
  }

  /** A matched line keeps the invariant and is counted once. */
  lemma AdvanceGood(myCall: string, s: State, e: Entry)
    requires Good(myCall, s)
    ensures Consistent(s)
    ensures var r := Advance(myCall, s, e);
            r.Done? ==> Good(myCall, r.value)
                        && r.value.contributing + r.value.nonContributing + r.value.unmatched
                           == s.contributing + s.nonContributing + s.unmatched + 1
    ensures Advance(myCall, s, e).Raised? ==> Advance(myCall, s, e).error == IndexError
  {
    OpensIffNoCurrent(myCall, s);
    if Contains(e.message, myCall) {
      var parts := Split(e.message);
      if !s.current {
        var c := Start(myCall, e, parts);
        if c.Done? {
          OpenGood(myCall, s, c.value, e.message, parts, e.stamp);
        }
      } else {
        AppendGood(myCall, s, e.message, parts, e.stamp);
      }
    }
  }

  /** One step keeps the invariant and counts the line exactly once. */
  lemma StepGood(myCall: string, s: State, line: string)
    requires Good(myCall, s)
    ensures Consistent(s)
    ensures var r := Step(myCall, s, line);
            r.Done? ==> Good(myCall, r.value)
                        && r.value.contributing + r.value.nonContributing + r.value.unmatched
                           == s.contributing + s.nonContributing + s.unmatched + 1
    ensures Step(myCall, s, line).Raised? ==> Step(myCall, s, line).error == IndexError
  {
    OpensIffNoCurrent(myCall, s);
    var m := MatchLine(line);
    if m.Some? {
      AdvanceGood(myCall, s, EntryOf(m.value));
    }
  }

  /** `process_all_txt` on the lines of the file. */
  function Run(myCall: string, lines: seq<string>): (r: Outcome<State>)
    ensures r.Done? ==> Good(myCall, r.value)
    ensures r.Done? ==> r.value.contributing + r.value.nonContributing + r.value.unmatched == |lines|
    ensures r.Raised? ==> r.error == IndexError
    decreases |lines|
  {
    if lines == [] then Done(INITIAL)
    else
      var s :- Run(myCall, lines[..|lines| - 1]);
      StepGood(myCall, s, lines[|lines| - 1]);
      Step(myCall, s, lines[|lines| - 1])
  }

  // ---- the conversations of a contributing line ----

  /** What one contributing line does to the list (lines 66-95): with no
    * current conversation it opens a new one with this message, its time
    * stamp, partner and location; otherwise it appends the message to the
    * current one and leaves the others alone. Either way the conversation
    * ends, at this line's time stamp, exactly when the message contains
    * "73", and then none is current. */
  lemma AdvanceEffect(myCall: string, s: State, e: Entry)
    requires Good(myCall, s) && Contains(e.message, myCall)
    ensures Consistent(s)
    ensures var r, parts := Advance(myCall, s, e), Split(e.message);
            (r.Raised? <==> !s.current && Partner(myCall, parts).Raised?)
            && (r.Done? ==>
                  var cs := r.value.conversations;
                  && cs != []
                  && r.value.current == !Contains(e.message, "73")
                  && Last(cs).endTime == (if Contains(e.message, "73") then Some(e.stamp) else None)
                  && (!s.current ==>
                        && cs[..|cs| - 1] == s.conversations
                        && Last(cs).messages == [e.message] && Last(cs).startTime == e.stamp
                        && Last(cs).partner == Partner(myCall, parts).value
                        && Last(cs).location == Location(parts)
                        && Last(cs).band == e.band && Last(cs).frequencyOffset == e.offset
                        && Last(cs).reportToMe == ReportsAsWritten(myCall, Start(myCall, e, parts).value, parts).reportToMe
                        && Last(cs).reportFromMe == ReportsAsWritten(myCall, Start(myCall, e, parts).value, parts).reportFromMe)
                  && (s.current ==>
                        && cs[..|cs| - 1] == s.conversations[..|cs| - 1]
                        && Last(cs).messages == Last(s.conversations).messages + [e.message]
                        && Last(cs).startTime == Last(s.conversations).startTime
                        && Last(cs).partner == Last(s.conversations).partner
                        && Last(cs).reportToMe == ReportsAsWritten(myCall, Last(s.conversations), parts).reportToMe
                        && Last(cs).reportFromMe == ReportsAsWritten(myCall, Last(s.conversations), parts).reportFromMe))
  {
    OpensIffNoCurrent(myCall, s);
    if s.current {
      assert ConversationOk(myCall, Last(s.conversations));
      AppendEffect(myCall, s, e);
    } else {
      OpenEffect(myCall, s, e);
    }
  }

  /** A line that opens a conversation. */
  lemma OpenEffect(myCall: string, s: State, e: Entry)
    requires Consistent(s) && Contains(e.message, myCall) && Opens(myCall, s)
    ensures var r, parts := Advance(myCall, s, e), Split(e.message);
            (r.Raised? <==> Partner(myCall, parts).Raised?)
            && (r.Done? ==>
                  var cs := r.value.conversations;
                  && cs != [] && cs[..|cs| - 1] == s.conversations
                  && r.value.current == !Contains(e.message, "73")
                  && Last(cs).endTime == (if Contains(e.message, "73") then Some(e.stamp) else None)
                  && Last(cs).messages == [e.message] && Last(cs).startTime == e.stamp
                  && Last(cs).partner == Partner(myCall, parts).value
                  && Last(cs).location == Location(parts)
                  && Last(cs).band == e.band && Last(cs).frequencyOffset == e.offset
                  && Last(cs).reportToMe == ReportsAsWritten(myCall, Start(myCall, e, parts).value, parts).reportToMe
                  && Last(cs).reportFromMe == ReportsAsWritten(myCall, Start(myCall, e, parts).value, parts).reportFromMe)
  {
    var r := Advance(myCall, s, e);
    if r.Done? {
      var cs := r.value.conversations;
      var parts := Split(e.message);
      ReportsAsWrittenKeeps(myCall, Start(myCall, e, parts).value, parts);
      assert cs[..|cs| - 1] == s.conversations;
    }
  }

  /** A line appended to the current conversation. */
  lemma AppendEffect(myCall: string, s: State, e: Entry)
    requires Consistent(s) && Contains(e.message, myCall) && !Opens(myCall, s)
    ensures var r := Advance(myCall, s, e);
            && r.Done?
            && var cs := r.value.conversations;
            && cs != [] && cs[..|cs| - 1] == s.conversations[..|cs| - 1]
            && r.value.current == !Contains(e.message, "73")
            && Last(cs).endTime == (if Contains(e.message, "73") then Some(e.stamp) else Last(s.conversations).endTime)
            && Last(cs).messages == Last(s.conversations).messages + [e.message]
            && Last(cs).startTime == Last(s.conversations).startTime
            && Last(cs).partner == Last(s.conversations).partner
            && Last(cs).location == Last(s.conversations).location
            && Last(cs).band == Last(s.conversations).band
            && Last(cs).frequencyOffset == Last(s.conversations).frequencyOffset
            && Last(cs).reportToMe == ReportsAsWritten(myCall, Last(s.conversations), Split(e.message)).reportToMe
            && Last(cs).reportFromMe == ReportsAsWritten(myCall, Last(s.conversations), Split(e.message)).reportFromMe
  {
    var c := Last(s.conversations);
    ReportsAsWrittenKeeps(myCall, c.(messages := c.messages + [e.message]), Split(e.message));
  }

  /** A conversation opened and closed by the same line starts and ends at
    * that line's time stamp. */
  lemma OneLineConversation(myCall: string, s: State, e: Entry)
    requires Good(myCall, s) && !s.current
    requires Contains(e.message, myCall) && Contains(e.message, "73")
    ensures Consistent(s)
    ensures var r := Advance(myCall, s, e);
            r.Done? ==> r.value.conversations != []
                        && Last(r.value.conversations).endTime == Some(Last(r.value.conversations).startTime)
  {
    AdvanceEffect(myCall, s, e);
  }

  // ---- signal reports ----

  /** The report rule touches the two report fields only. */
  lemma ReportsAsWrittenKeeps(myCall: string, c: Conversation, parts: seq<string>)
    ensures var r := ReportsAsWritten(myCall, c, parts);
            r == c.(reportToMe := r.reportToMe, reportFromMe := r.reportFromMe)
  {
  }

  /** As written, a third token starting with '-' always becomes the report
    * to the operator, whoever sent it; the report from the operator is only
    * ever set to a '+' token, when the own call is the second token and not
    * the first; fewer than three tokens change nothing. */
  lemma ReportsAsWrittenCases(myCall: string, c: Conversation, parts: seq<string>)
    ensures |parts| < 3 ==> ReportsAsWritten(myCall, c, parts) == c
    ensures |parts| >= 3 && StartsWith(parts[2], '-') ==>
              ReportsAsWritten(myCall, c, parts) == c.(reportToMe := Some(parts[2]))
    ensures ReportsAsWritten(myCall, c, parts).reportFromMe != c.reportFromMe ==>
              |parts| >= 3 && StartsWith(parts[2], '+') && parts[1] == myCall && parts[0] != myCall
  {
  }

  /** The intended reports: only the two report fields change; the report to
    * the operator changes only to a signed third token of a message addressed
    * to the own call, the report from the operator only to a signed third
    * token of a message whose second token (and not the first) is the own
    * call, and each of these does change it. */
  lemma ReportsCases(myCall: string, c: Conversation, parts: seq<string>)
    ensures var r := Reports(myCall, c, parts);
            && r == c.(reportToMe := r.reportToMe, reportFromMe := r.reportFromMe)
            && (r.reportToMe != c.reportToMe ==>
                  |parts| >= 3 && Signed(parts[2]) && parts[0] == myCall && r.reportToMe == Some(parts[2]))
            && (r.reportFromMe != c.reportFromMe ==>
                  |parts| >= 3 && Signed(parts[2]) && parts[0] != myCall && parts[1] == myCall
                  && r.reportFromMe == Some(parts[2]))
            && (|parts| >= 3 && Signed(parts[2]) && parts[0] == myCall ==> r.reportToMe == Some(parts[2]))
            && (|parts| >= 3 && Signed(parts[2]) && parts[0] != myCall && parts[1] == myCall ==>
                  r.reportFromMe == Some(parts[2]))
  {
  }

  /** The report the operator sends, "K3TJB M7KCM -10", is filed as written
    * as the report received, where the intended reading files it as sent. */
  lemma ReportsMisfiled(myCall: string, c: Conversation, other: string, report: string)
    requires other != myCall && StartsWith(report, '-')
    ensures ReportsAsWritten(myCall, c, [other, myCall, report]) == c.(reportToMe := Some(report))
    ensures Reports(myCall, c, [other, myCall, report]) == c.(reportFromMe := Some(report))
  {
  }

  // ---- messages and counters over the whole pass ----

  /** All messages of `cs`, conversation after conversation. */
  function Messages(cs: seq<Conversation>): seq<string>
    decreases |cs|
  {
    if cs == [] then [] else Messages(cs[..|cs| - 1]) + Last(cs).messages
  }

  /** A message that mentions the own call, or nothing. */
  function Contributed(myCall: string, message: string): seq<string> {
    if Contains(message, myCall) then [message] else []
  }

  /** The stripped message of a line that contributes, or nothing. */
  function Contribution(myCall: string, line: string): seq<string> {
    var m := MatchLine(line);
    if m.Some? then Contributed(myCall, Strip(m.value.message)) else []
  }

  /** The messages of the contributing lines, in file order. */
  function Contributions(myCall: string, lines: seq<string>): seq<string>
    decreases |lines|
  {
    if lines == [] then []
    else Contributions(myCall, lines[..|lines| - 1]) + Contribution(myCall, lines[|lines| - 1])
  }

  /** The number of lines the pattern does not match. */
  function Unmatched(lines: seq<string>): nat
    decreases |lines|
  {
    if lines == [] then 0
    else Unmatched(lines[..|lines| - 1]) + (if MatchLine(lines[|lines| - 1]).None? then 1 else 0)
  }

  lemma MessagesSnoc(cs: seq<Conversation>, c: Conversation)
    ensures Messages(cs + [c]) == Messages(cs) + c.messages
  {
    assert (cs + [c])[..|cs|] == cs;
  }

  lemma MessagesWithLast(cs: seq<Conversation>, c: Conversation, m: string)
    requires cs != [] && c.messages == Last(cs).messages + [m]
    ensures Messages(WithLast(cs, c)) == Messages(cs) + [m]
  {
    var init := cs[..|cs| - 1];
    MessagesSnoc(init, c);
    assert (Messages(init) + Last(cs).messages) + [m] == Messages(init) + (Last(cs).messages + [m]);
  }

  /** A matched line adds its message to the messages and the contributing
    * count when it mentions the own call. */
  lemma AdvanceMessages(myCall: string, s: State, e: Entry)
    requires Consistent(s)
    ensures var r := Advance(myCall, s, e);
            r.Done? ==> && Messages(r.value.conversations) == Messages(s.conversations) + Contributed(myCall, e.message)
                        && r.value.contributing == s.contributing + |Contributed(myCall, e.message)|
                        && r.value.unmatched == s.unmatched
  {
    var r := Advance(myCall, s, e);
    var message := e.message;
    if Contains(message, myCall) && r.Done? {
      var parts := Split(message);
      if Opens(myCall, s) {
        var c := Start(myCall, e, parts).value;
        var f := Finish(myCall, c, message, parts, e.stamp);
        assert r.value.conversations == s.conversations + [f];
        MessagesSnoc(s.conversations, f);
      } else {
        var c := Last(s.conversations);
        var f := Finish(myCall, c.(messages := c.messages + [message]), message, parts, e.stamp);
        assert r.value.conversations == WithLast(s.conversations, f);
        MessagesWithLast(s.conversations, f, message);
      }
    }
  }

  /** One step adds its line's contribution to the messages and the
    * contributing count, and counts an unmatched line as unmatched. */
  lemma StepMessages(myCall: string, s: State, line: string)
    requires Good(myCall, s)
    ensures Consistent(s)
    ensures var r := Step(myCall, s, line);
            r.Done? ==> && Messages(r.value.conversations) == Messages(s.conversations) + Contribution(myCall, line)
                        && r.value.contributing == s.contributing + |Contribution(myCall, line)|
                        && r.value.unmatched == s.unmatched + (if MatchLine(line).None? then 1 else 0)
  {
    GoodConsistent(myCall, s);
    var m := MatchLine(line);
    if m.Some? {
      AdvanceMessages(myCall, s, EntryOf(m.value));
    }
  }

  /** Concatenating the conversations' messages gives exactly the messages of
    * the contributing lines in file order; `contributing` counts them and
    * `unmatched` counts the lines the pattern rejects. */
  lemma {:induction false} RunMessages(myCall: string, lines: seq<string>)
    ensures var r := Run(myCall, lines);
            r.Done? ==> && Messages(r.value.conversations) == Contributions(myCall, lines)
                        && r.value.contributing == |Contributions(myCall, lines)|
                        && r.value.unmatched == Unmatched(lines)
    decreases |lines|
  {
    if lines != [] {
      var init := lines[..|lines| - 1];
      RunMessages(myCall, init);
      if Run(myCall, init).Done? {
        StepMessages(myCall, Run(myCall, init).value, lines[|lines| - 1]);
      }
    }
  }

  // ---- the loop ----

  /** An exception ends the pass: later lines change nothing. */
  lemma {:induction false} RunRaisedSticky(myCall: string, lines: seq<string>, i: nat)
    requires i <= |lines| && Run(myCall, lines[..i]).Raised?
    ensures Run(myCall, lines) == Run(myCall, lines[..i])
    decreases |lines| - i
  {
    if i == |lines| {
      assert lines[..i] == lines;
    } else {
      var init := lines[..|lines| - 1];
      assert init[..i] == lines[..i];
      RunRaisedSticky(myCall, init, i);
    }
  }

  /** One more line after a pass that returned `s`. */
  lemma RunStep(myCall: string, lines: seq<string>, i: nat, s: State)
    requires i < |lines| && Run(myCall, lines[..i]) == Done(s)
    ensures Consistent(s) && Run(myCall, lines[..i + 1]) == Step(myCall, s, lines[i])
  {
    GoodConsistent(myCall, s);
    assert lines[..i + 1][..i] == lines[..i];
  }

  /** `process_all_txt` (lines 38-97) on the lines of the file. */
  method ProcessAllTxt(myCall: string, lines: seq<string>) returns (r: Outcome<State>)
    ensures r == Run(myCall, lines)
  {
    var conversations: seq<Conversation> := [];
    var current := false;
    var contributing, nonContributing, unmatched, total := 0, 0, 0, 0;
    var i := 0;
    while i < |lines|
      invariant 0 <= i <= |lines|
      invariant Run(myCall, lines[..i]) == Done(State(conversations, current, contributing, nonContributing, unmatched, total))
    {
      var s := State(conversations, current, contributing, nonContributing, unmatched, total);
      RunStep(myCall, lines, i, s);
      var step := ProcessLine(myCall, s, lines[i]);
      if step.Raised? {
        RunRaisedSticky(myCall, lines, i + 1);
        return Raised(step.error);
      }
      conversations, current := step.value.conversations, step.value.current;
      contributing, nonContributing := step.value.contributing, step.value.nonContributing;
      unmatched, total := step.value.unmatched, step.value.total;
      i := i + 1;
    }
    assert lines[..i] == lines;
    r := Done(State(conversations, current, contributing, nonContributing, unmatched, total));
  }

  /** The body of the loop (lines 48-95) for one line. */
  method ProcessLine(myCall: string, s: State, line: string) returns (r: Outcome<State>)
    requires Consistent(s)
    ensures r == Step(myCall, s, line)
  {
    var m := MatchLine(line);
    if m.None? {
      return Done(s.(unmatched := s.unmatched + 1));
    }
    var data := m.value;
    var entry := Entry(Strip(data.message), data.date + "_" + data.time, GetBand(Frequency(data.freq)), data.offset);
    r := ProcessEntry(myCall, s, entry);
  }

  /** Lines 55-95 for a matched line. The current conversation is updated
    * in a local copy and written back as the last element of the list,
    * which is where the dict it aliases lives. */
  method ProcessEntry(myCall: string, s: State, e: Entry) returns (r: Outcome<State>)
    requires Consistent(s)
    ensures r == Advance(myCall, s, e)
  {
    var message := e.message;
    if !Contains(message, myCall) {
      return Done(s.(nonContributing := s.nonContributing + 1));
    }
    var parts := Split(message);
    var conversations, total := s.conversations, s.total;
    var current: Conversation;
    if Opens(myCall, s) {
      var partner := Partner(myCall, parts);
      if partner.Raised? {
        return Raised(partner.error);
      }
      current := Conversation(e.stamp, partner.value, Location(parts), e.band, e.offset, None, None, None, [message]);
      conversations := conversations + [current];
      total := total + 1;
    } else {
      current := Last(conversations);
      current := current.(messages := current.messages + [message]);
    }
    if |parts| >= 3 {
      if (parts[0] == myCall && StartsWith(parts[2], '+')) || StartsWith(parts[2], '-') {
        current := current.(reportToMe := Some(parts[2]));
      } else if (parts[1] == myCall && StartsWith(parts[2], '+')) || StartsWith(parts[2], '-') {
        current := current.(reportFromMe := Some(parts[2]));
      }
    }
    var open := true;
    if Contains(message, "73") {
      current := current.(endTime := Some(e.stamp));
      open := false;
    }
    assert Opens(myCall, s) ==> conversations[..|conversations| - 1] == s.conversations;
    conversations := WithLast(conversations, current);
    r := Done(State(conversations, open, s.contributing + 1, s.nonContributing, s.unmatched, total));
  }

  // ---- a worked example ----

  /** A station calls the operator with its locator, and the operator's
    * sign-off is the next contributing line. */
  predicate CallThenSignOff(myCall: string, other: string, loc: string, call: Entry, signOff: Entry) {
    && Split(call.message) == [other, myCall, loc] && other != myCall
    && loc != "73" && loc != "RR73" && !Signed(loc)
    && Contains(call.message, myCall) && !Contains(call.message, "73")
    && Contains(signOff.message, myCall) && Contains(signOff.message, "73")
    && (|Split(signOff.message)| < 3 || !Signed(Split(signOff.message)[2]))
  }

  /** Such a pair of lines makes one conversation, with the calling station
    * as partner, its locator as location, and the band and offset of the
    * call; the call leaves it current and the sign-off ends it at its own
    * time stamp. */
  lemma TwoLineContact(myCall: string, other: string, loc: string, call: Entry, signOff: Entry)
    requires CallThenSignOff(myCall, other, loc, call, signOff)
    ensures var first := Advance(myCall, INITIAL, call);
            var c := Conversation(call.stamp, other, Some(loc), call.band, call.offset, None, None, None, [call.message]);
            && first == Done(State([c], true, 1, 0, 0, 1))
            && Advance(myCall, first.value, signOff)
               == Done(State([c.(endTime := Some(signOff.stamp), messages := [call.message, signOff.message])],
                             false, 2, 0, 0, 1))
  {
    var c := Conversation(call.stamp, other, Some(loc), call.band, call.offset, None, None, None, [call.message]);
    var parts := [other, myCall, loc];
    assert Partner(myCall, parts) == Done(other);
    assert Start(myCall, call, parts) == Done(c);
    assert Finish(myCall, c, call.message, parts, call.stamp) == c;
    assert Opens(myCall, INITIAL);
    assert INITIAL.conversations + [c] == [c];
    var s1 := State([c], true, 1, 0, 0, 1);
    assert Advance(myCall, INITIAL, call) == Done(s1);
    assert LastMessage(s1) == call.message;
    var c' := c.(messages := c.messages + [signOff.message]);
    assert c.messages + [signOff.message] == [call.message, signOff.message];
    var parts' := Split(signOff.message);
    assert ReportsAsWritten(myCall, c', parts') == c';
    assert WithLast([c], Finish(myCall, c', signOff.message, parts', signOff.stamp)) == [c'.(endTime := Some(signOff.stamp))];
  }

  /** No "7" directly followed by "3". */
  lemma NoSeventyThree(s: string)
    requires forall i :: 0 <= i < |s| - 1 ==> s[i] != '7' || s[i + 1] != '3'
    ensures !Contains(s, "73")
  {
    ContainsIff(s, "73");
    forall i | 0 <= i <= |s| ensures !("73" <= s[i..]) {
      if i < |s| - 1 {
        assert s[i..][0] == s[i] && s[i..][1] == s[i + 1];
      }
    }
  }

  lemma FiveDigits()
    ensures AllIn("14074", Digit) && DigitsValue("14074") == 14074
  {
    assert "14074"[..4] == "1407" && "1407"[..3] == "140" && "140"[..2] == "14" && "14"[..1] == "1";
    assert "1"[..0] == "";
  }

  /** `float("14.074")` is exactly 14074 / 10^3 ... */
  lemma ExampleFrequency()
    ensures IsPointDecimal("14.074") && AllIn("14.074", DigitOrDot)
    ensures ParseFloat("14.074") == Some(Decimal(14074, 3))
  {
    PointDecimalShape("14", "074");
    assert "14.074" == "14" + "." + "074";
    ParseFloatPoint("14", "074");
    assert "14" + "074" == "14074";
    FiveDigits();
  }

  /** ... which is on 20 m. */
  lemma ExampleBand()
    ensures IsPointDecimal("14.074") && GetBand(Frequency("14.074")) == "20m"
  {
    ExampleFrequency();
    assert Pow10(3) == 1000;
    GetBandInRow(Decimal(14074, 3), 5);
  }

  lemma CallMentions()
    ensures Contains("K3TJB M7KCM EM77", "M7KCM") && !Contains("K3TJB M7KCM EM77", "73")
  {
    ContainsAt("K3TJB M7KCM EM77", "M7KCM", 6);
    NoSeventyThree("K3TJB M7KCM EM77");
  }

  lemma SignOffMentions()
    ensures Contains("M7KCM K3TJB 73", "M7KCM") && Contains("M7KCM K3TJB 73", "73")
  {
    ContainsAt("M7KCM K3TJB 73", "M7KCM", 0);
    ContainsAt("M7KCM K3TJB 73", "73", 12);
  }

  lemma CallTokens()
    ensures Split("K3TJB M7KCM EM77") == ["K3TJB", "M7KCM", "EM77"]
  {
    assert JoinSpace(["K3TJB", "M7KCM", "EM77"]) == "K3TJB M7KCM EM77";
    SplitJoin(["K3TJB", "M7KCM", "EM77"]);
  }

  lemma SignOffTokens()
    ensures Split("M7KCM K3TJB 73") == ["M7KCM", "K3TJB", "73"]
  {
    assert JoinSpace(["M7KCM", "K3TJB", "73"]) == "M7KCM K3TJB 73";
    SplitJoin(["M7KCM", "K3TJB", "73"]);
  }

  lemma ExampleCall()
    ensures Split("K3TJB M7KCM EM77") == ["K3TJB", "M7KCM", "EM77"] && "K3TJB" != "M7KCM"
    ensures "EM77" != "73" && "EM77" != "RR73" && !Signed("EM77")
    ensures Contains("K3TJB M7KCM EM77", "M7KCM") && !Contains("K3TJB M7KCM EM77", "73")
  {
    CallTokens();
    CallMentions();
  }

  lemma ExampleSignOff()
    ensures Contains("M7KCM K3TJB 73", "M7KCM") && Contains("M7KCM K3TJB 73", "73")
    ensures |Split("M7KCM K3TJB 73")| < 3 || !Signed(Split("M7KCM K3TJB 73")[2])
  {
    SignOffTokens();
    SignOffMentions();
  }

  /** The lines
    *   240927_220100   14.074 Rx FT8   -15 -0.0  373 K3TJB M7KCM EM77
    *   240927_220115   14.074 Tx FT8   -9 0.0  373 M7KCM K3TJB 73
    * with own call M7KCM: K3TJB, at EM77, calls the operator on 14.074 MHz
    * (20 m, by ExampleBand) and the operator signs off fifteen seconds
    * later. From their entries, the pass makes one conversation with
    * partner K3TJB, location EM77 and offset 373, ended at 240927_220115. */
  lemma TwoLineExample()
    ensures Advance("M7KCM", INITIAL, Entry("K3TJB M7KCM EM77", "240927_220100", "20m", "373"))
            == Done(State([Conversation("240927_220100", "K3TJB", Some("EM77"), "20m", "373", None, None,
                                        None, ["K3TJB M7KCM EM77"])], true, 1, 0, 0, 1))
    ensures Advance("M7KCM", State([Conversation("240927_220100", "K3TJB", Some("EM77"), "20m", "373", None, None,
                                                 None, ["K3TJB M7KCM EM77"])], true, 1, 0, 0, 1),
                    Entry("M7KCM K3TJB 73", "240927_220115", "20m", "373"))
            == Done(State([Conversation("240927_220100", "K3TJB", Some("EM77"), "20m", "373", None, None,
                                        Some("240927_220115"), ["K3TJB M7KCM EM77", "M7KCM K3TJB 73"])],
                          false, 2, 0, 0, 1))
  {
    var call := Entry("K3TJB M7KCM EM77", "240927_220100", "20m", "373");
    var signOff := Entry("M7KCM K3TJB 73", "240927_220115", "20m", "373");
    ExampleCall();
    ExampleSignOff();
    assert CallThenSignOff("M7KCM", "K3TJB", "EM77", call, signOff);
    TwoLineContact("M7KCM", "K3TJB", "EM77", call, signOff);
  }
}
