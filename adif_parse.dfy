/*
 * `parse_wsjtx_log` of WSJT-X_to_ADIF.py. A first loop matches every line
 * and keeps the matching ones as exchanges (raising ValueError when a
 * frequency has no digit or two dots); a second loop logs every exchange
 * that mentions the operator's call and carries a "73", and counts the
 * ones that mention the call without one.
 *
 * The specification functions below read a log one line (one exchange)
 * at a time from the front, as the script's loops do: `F(xs)` is `F` of
 * all but the last element, followed by one step on the last. An
 * exception raised by a step ends the whole computation.
 */
module AdifParse {
  import opened PyText
  import opened PyDateTime
  import opened AdifBand
  import opened PyRegex
  import opened AdifGrammar

  /** One matched line: its groups and `float(freq_mhz)`. */
  datatype Exchange = Exchange(line: RawLine, frequency: Decimal)

  /** The state of the first loop: the exchanges so far, the number of
    * lines that did not match, and the frequency text of the last line
    * that did (`freq_mhz`, which stays in scope after the loop). */
  datatype Scan = Scan(exchanges: seq<Exchange>, invalid: nat, lastFreq: Option<string>)

  /** One entry of `qso_data`. */
  datatype QsoRecord = QsoRecord(
    call: string, band: string, freq: string, mode: string, qsoDate: string,
    timeOn: string, rstSent: string, rstRcvd: string, myGrid: string, grid: string)

  /** The state of the second loop. */
  datatype Tally = Tally(records: seq<QsoRecord>, valid: nat, nonContributing: nat)

  /** What `parse_wsjtx_log` returns. */
  datatype Summary = Summary(records: seq<QsoRecord>, valid: nat, nonContributing: nat, invalid: nat)

  predicate AllWellFormed(xs: seq<Exchange>) {
    forall x :: x in xs ==> WellFormed(x.line)
  }

  // ---- the first loop ----

  /** Every successful match holds well-formed groups. */
  predicate MatchesOk(ms: seq<Option<RawLine>>) {
    forall m :: m in ms && m.Some? ==> WellFormed(m.value)
  }

  /** `qso_pattern.match(line.strip())` for every line of the file. */
  function MatchAll(lines: seq<string>): (ms: seq<Option<RawLine>>)
    ensures |ms| == |lines| && MatchesOk(ms)
    ensures forall i :: 0 <= i < |lines| ==> ms[i] == ScanLine(lines[i])
  {
    seq(|lines|, i requires 0 <= i < |lines| => ScanLine(lines[i]))
  }

  /** The body of the first loop for one line, given the line's match. */
  function ScanStep(s: Scan, m: Option<RawLine>): (r: Outcome<Scan>)
    requires m.Some? ==> WellFormed(m.value)
    ensures m.None? ==> r == Done(Scan(s.exchanges, s.invalid + 1, s.lastFreq))
    ensures r.Raised? <==> m.Some? && ParseFloat(m.value.freq).None?
    ensures r.Done? && m.Some? ==>
              && r.value.invalid == s.invalid
              && r.value.lastFreq == Some(m.value.freq)
              && r.value.exchanges == s.exchanges + [Exchange(m.value, ParseFloat(m.value.freq).value)]
  {
    match m
    case None => Done(Scan(s.exchanges, s.invalid + 1, s.lastFreq))
    case Some(raw) =>
      var f := ParseFloat(raw.freq);
      if f.None? then Raised(ValueError)
      else Done(Scan(s.exchanges + [Exchange(raw, f.value)], s.invalid, Some(raw.freq)))
  }

  /** The first loop, over the matches of the lines in file order. */
  function FirstPass(ms: seq<Option<RawLine>>): (r: Outcome<Scan>)
    requires MatchesOk(ms)
    ensures r.Done? ==> AllWellFormed(r.value.exchanges)
    decreases |ms|
  {
    if ms == [] then Done(Scan([], 0, None))
    else
      var last := ms[|ms| - 1];
      assert last in ms;
      assert forall m :: m in ms[..|ms| - 1] ==> m in ms;
      var s :- FirstPass(ms[..|ms| - 1]);
      ScanStep(s, last)
  }

  /** The groups of the lines that match, in order: the reference the
    * first loop is measured against. */
  function Matched(ms: seq<Option<RawLine>>): (m: seq<RawLine>)
    requires MatchesOk(ms)
    ensures |m| <= |ms|
    ensures forall r :: r in m ==> WellFormed(r)
    decreases |ms|
  {
    if ms == [] then []
    else
      var last := ms[|ms| - 1];
      assert last in ms;
      assert forall m :: m in ms[..|ms| - 1] ==> m in ms;
      var m := Matched(ms[..|ms| - 1]);
      if last.Some? then m + [last.value] else m
  }

  /** Every frequency text of `m` is a number for `float`. */
  predicate FreqsParse(m: seq<RawLine>) {
    forall i :: 0 <= i < |m| ==> AllIn(m[i].freq, DigitOrDot) && ParseFloat(m[i].freq).Some?
  }

  /** The first loop raises exactly when a matching line's frequency is
    * not a number. */
  lemma FirstPassRaises(ms: seq<Option<RawLine>>)
    requires MatchesOk(ms)
    ensures FirstPass(ms).Done? <==> FreqsParse(Matched(ms))
  {
    if FirstPass(ms).Done? {
      FirstPassSpec(ms);
      var m := Matched(ms);
      forall i | 0 <= i < |m| ensures AllIn(m[i].freq, DigitOrDot) && ParseFloat(m[i].freq).Some? {
        assert m[i] in m;
      }
    }
    if FreqsParse(Matched(ms)) {
      FirstPassParses(ms);
    }
  }

  lemma {:induction false} FirstPassParses(ms: seq<Option<RawLine>>)
    requires MatchesOk(ms) && FreqsParse(Matched(ms))
    ensures FirstPass(ms).Done?
    decreases |ms|
  {
    if ms != [] {
      var init := ms[..|ms| - 1];
      MatchesPrefix(ms, |ms| - 1);
      var m0, m := Matched(init), Matched(ms);
      assert forall i :: 0 <= i < |m0| ==> m[i] == m0[i];
      FirstPassParses(init);
      assert ms[|ms| - 1] in ms;
      if ms[|ms| - 1].Some? {
        assert m[|m0|] == ms[|ms| - 1].value;
      }
    }
  }

  /** When the first loop returns, it holds one exchange per matching
    * line, has counted the others as invalid, and remembers the last
    * matching line's frequency text. */
  lemma {:induction false} FirstPassCounts(ms: seq<Option<RawLine>>)
    requires MatchesOk(ms) && FirstPass(ms).Done?
    ensures var s := FirstPass(ms).value;
            var m := Matched(ms);
            && |s.exchanges| == |m|
            && s.invalid == |ms| - |m|
            && s.lastFreq == (if m == [] then None else Some(m[|m| - 1].freq))
    decreases |ms|
  {
    if ms != [] {
      var init := ms[..|ms| - 1];
      MatchesPrefix(ms, |ms| - 1);
      assert ms[|ms| - 1] in ms;
      FirstPassCounts(init);
    }
  }

  /** When the first loop returns, its exchanges are the matching lines,
    * in order, each with `float` of its frequency text. */
  lemma {:induction false} FirstPassSpec(ms: seq<Option<RawLine>>)
    requires MatchesOk(ms) && FirstPass(ms).Done?
    ensures |FirstPass(ms).value.exchanges| == |Matched(ms)|
    ensures forall i :: 0 <= i < |Matched(ms)| ==>
              && FirstPass(ms).value.exchanges[i].line == Matched(ms)[i]
              && Some(FirstPass(ms).value.exchanges[i].frequency) == ParseFloat(Matched(ms)[i].freq)
    decreases |ms|
  {
    FirstPassCounts(ms);
    if ms != [] {
      var init := ms[..|ms| - 1];
      MatchesPrefix(ms, |ms| - 1);
      var last := ms[|ms| - 1];
      assert last in ms;
      FirstPassSpec(init);
      var s0, m0 := FirstPass(init).value, Matched(init);
      var s, m := FirstPass(ms).value, Matched(ms);
      assert FirstPass(ms) == ScanStep(s0, last);
      if last.Some? {
        assert m == m0 + [last.value];
        assert s.exchanges == s0.exchanges + [Exchange(last.value, ParseFloat(last.value.freq).value)];
      } else {
        assert m == m0 && s.exchanges == s0.exchanges;
      }
    }
  }

  /** An exception in the first loop ends the parse: once a prefix of the
    * log raises, the whole log raises the same exception. */
  lemma {:induction false} FirstPassSticky(ms: seq<Option<RawLine>>, k: nat)
    requires MatchesOk(ms) && k <= |ms| && MatchesOk(ms[..k])
    requires FirstPass(ms[..k]).Raised?
    ensures FirstPass(ms) == Raised(FirstPass(ms[..k]).error)
    decreases |ms| - k
  {
    if k < |ms| {
      FirstPassSnoc(ms, k);
      FirstPassSticky(ms, k + 1);
    } else {
      assert ms[..k] == ms;
    }
  }

  lemma MatchesPrefix(ms: seq<Option<RawLine>>, k: nat)
    requires MatchesOk(ms) && k <= |ms|
    ensures MatchesOk(ms[..k])
  {
    assert forall m :: m in ms[..k] ==> m in ms;
  }

  /** One more line for the first loop. */
  lemma FirstPassSnoc(ms: seq<Option<RawLine>>, k: nat)
    requires MatchesOk(ms) && k < |ms|
    ensures MatchesOk(ms[..k]) && MatchesOk(ms[..k + 1]) && ms[k] in ms
    ensures FirstPass(ms[..k]).Raised? ==> FirstPass(ms[..k + 1]) == Raised(FirstPass(ms[..k]).error)
    ensures FirstPass(ms[..k]).Done? ==> FirstPass(ms[..k + 1]) == ScanStep(FirstPass(ms[..k]).value, ms[k])
  {
    MatchesPrefix(ms, k);
    MatchesPrefix(ms, k + 1);
    assert ms[..k + 1][..k] == ms[..k];
  }

  // ---- the second loop ----

  /** `MyCall in message`. */
  predicate Mentions(myCall: string, raw: RawLine) {
    Contains(raw.message, myCall)
  }

  /** `"73" in message or "RR73" in message`. */
  predicate Closes(raw: RawLine) {
    Contains(raw.message, "73") || Contains(raw.message, "RR73")
  }

  /** The exchanges that become QSO records. */
  predicate IsLogged(myCall: string, x: Exchange) {
    Mentions(myCall, x.line) && Closes(x.line)
  }

  /** "RR73" contains "73", so the second half of the test never decides. */
  lemma ClosesIff73(raw: RawLine)
    ensures Closes(raw) <==> Contains(raw.message, "73")
  {
    RR73Contains73(raw.message);
  }

  /** Lines 80-86 and `sender.strip()`: the sender is the operator when
    * the operator's call comes first and the first token when it comes
    * second; a message of one token raises IndexError (`parts[1]`), and
    * one whose first two tokens are both other calls leaves the sender
    * None, whose `strip` raises AttributeError. */
  function Sender(myCall: string, parts: seq<string>): (r: Outcome<string>)
    ensures r.Done? <==> |parts| >= 2 && (parts[0] == myCall || parts[1] == myCall)
    ensures r.Done? ==> r.value == parts[0]
    ensures r == Raised(IndexError) <==> |parts| < 2
    ensures r == Raised(AttributeError) <==> |parts| >= 2 && parts[0] != myCall && parts[1] != myCall
  {
    if |parts| < 2 then Raised(IndexError)
    else if parts[0] == myCall then Done(myCall)
    else if parts[1] == myCall then Done(parts[0])
    else Raised(AttributeError)
  }

  /** The century `%y` gives the date's two-digit year. */
  function Century(date: string): string
    requires |date| == 6 && AllIn(date, Digit)
  {
    if TwoDigits(date, 0) <= 68 then "20" else "19"
  }

  /** The record logged for one exchange, with `freq` as its frequency
    * text. strptime runs first, so a bad time stamp wins over a bad
    * message. */
  function QsoOf(myCall: string, x: Exchange, freq: string): (r: Outcome<QsoRecord>)
    requires WellFormed(x.line)
  {
    var stamp := StrpTime(x.line.date + x.line.time);
    if stamp.None? then Raised(ValueError)
    else
      var sender :- Sender(myCall, Split(x.line.message));
      Done(RecordOf(sender, x, freq, stamp.value))
  }

  /** The dictionary appended to `qso_data`. */
  function RecordOf(sender: string, x: Exchange, freq: string, t: DateTime): QsoRecord
    requires Valid(t) && t.year < 10000
  {
    QsoRecord(Strip(sender), GetBand(x.frequency), freq, Strip(x.line.mode),
              StrfDate(t), StrfHourMinute(t), "599", Strip(x.line.signal), "AA00aa", "unknown")
  }

  /** When a logged exchange raises: a time stamp that is not a real date
    * and time raises ValueError before anything else is looked at; then a
    * message of fewer than two tokens raises IndexError, and one whose
    * first two tokens are both other calls raises AttributeError. */
  lemma QsoOfOutcome(myCall: string, x: Exchange, freq: string)
    requires WellFormed(x.line)
    ensures StrpTime(x.line.date + x.line.time).None? ==> QsoOf(myCall, x, freq) == Raised(ValueError)
    ensures QsoOf(myCall, x, freq).Done? <==>
              && StrpTime(x.line.date + x.line.time).Some?
              && |Split(x.line.message)| >= 2
              && (Split(x.line.message)[0] == myCall || Split(x.line.message)[1] == myCall)
    ensures StrpTime(x.line.date + x.line.time).Some? && Sender(myCall, Split(x.line.message)).Raised? ==>
              QsoOf(myCall, x, freq) == Raised(Sender(myCall, Split(x.line.message)).error)
  {
  }

  /** The fields of a logged record: the call is the message's first token
    * (the operator's own call when the operator's call comes first), the
    * band is that of the line's frequency, the date gains its century and
    * the time loses its seconds, and the rest are the line's own groups or
    * the script's constants. */
  lemma QsoOfFields(myCall: string, x: Exchange, freq: string)
    requires WellFormed(x.line) && QsoOf(myCall, x, freq).Done?
    ensures var q := QsoOf(myCall, x, freq).value;
            var parts := Split(x.line.message);
            && q.call == parts[0]
            && (q.call == myCall || parts[1] == myCall)
            && q.band == GetBand(x.frequency)
            && q.freq == freq
            && q.mode == x.line.mode
            && q.qsoDate == Century(x.line.date) + x.line.date
            && q.timeOn == x.line.time[..4]
            && q.rstSent == "599"
            && q.rstRcvd == x.line.signal
            && q.myGrid == "AA00aa" && q.grid == "unknown"
  {
    var parts := Split(x.line.message);
    var t := StrpTime(x.line.date + x.line.time).value;
    QsoOfRecord(myCall, x, freq);
    RecordOfFields(parts[0], x, freq, t);
    DateTextRoundTrip(x.line.date, x.line.time);
  }

  /** A logged exchange that does not raise becomes RecordOf its first
    * token and its parsed time stamp. */
  lemma QsoOfRecord(myCall: string, x: Exchange, freq: string)
    requires WellFormed(x.line) && QsoOf(myCall, x, freq).Done?
    ensures StrpTime(x.line.date + x.line.time).Some? && |Split(x.line.message)| >= 2
    ensures QsoOf(myCall, x, freq).value ==
              RecordOf(Split(x.line.message)[0], x, freq, StrpTime(x.line.date + x.line.time).value)
  {
  }

  /** `strip` leaves the token, the mode and the report as they are. */
  lemma RecordOfFields(sender: string, x: Exchange, freq: string, t: DateTime)
    requires WellFormed(x.line) && Valid(t) && t.year < 10000
    requires sender != [] && AllIn(sender, NonSpace)
    ensures var q := RecordOf(sender, x, freq, t);
            && q.call == sender && q.band == GetBand(x.frequency) && q.freq == freq
            && q.mode == x.line.mode && q.qsoDate == StrfDate(t) && q.timeOn == StrfHourMinute(t)
            && q.rstSent == "599" && q.rstRcvd == x.line.signal
            && q.myGrid == "AA00aa" && q.grid == "unknown"
  {
    StripUnchanged(sender);
    WordStrips(x.line.mode);
    SignalStrips(x.line.signal);
  }

  /** `qso_date` and `time_on` are the line's own date, after its century,
    * and the hour and minute of its time. */
  lemma DateTextRoundTrip(date: string, time: string)
    requires |date| == 6 && AllIn(date, Digit) && |time| == 6 && AllIn(time, Digit)
    requires StrpTime(date + time).Some?
    ensures StrfDate(StrpTime(date + time).value) == Century(date) + date
    ensures StrfHourMinute(StrpTime(date + time).value) == time[..4]
  {
    var text := date + time;
    StampRoundTrip(text);
    assert text[..6] == date && text[6..10] == time[..4];
    assert TwoDigits(text, 0) == TwoDigits(date, 0);
  }

  lemma WordStrips(w: string)
    requires w != [] && AllIn(w, Word)
    ensures Strip(w) == w
  {
    if IsSpace(w[0]) { SpaceEndsToken(w[0]); }
    if IsSpace(w[|w| - 1]) { SpaceEndsToken(w[|w| - 1]); }
    StripUnchanged(w);
  }

  lemma SignalStrips(w: string)
    requires IsSignedInt(w)
    ensures Strip(w) == w
  {
    assert w[0] == '-' || IsDigit(w[0]);
    assert IsDigit(w[|w| - 1]);
    StripUnchanged(w);
  }

  /** The body of the second loop for one exchange, logging it with the
    * frequency text `freq`. */
  function LogStep(myCall: string, t: Tally, x: Exchange, freq: string): Outcome<Tally>
    requires WellFormed(x.line)
  {
    if Mentions(myCall, x.line) then
      if Closes(x.line) then
        var q :- QsoOf(myCall, x, freq);
        Done(Tally(t.records + [q], t.valid + 1, t.nonContributing))
      else Done(Tally(t.records, t.valid, t.nonContributing + 1))
    else Done(t)
  }

  /** The three ways through the body of the second loop. */
  lemma LogStepCases(myCall: string, t: Tally, x: Exchange, freq: string)
    requires WellFormed(x.line)
    ensures !Mentions(myCall, x.line) ==> LogStep(myCall, t, x, freq) == Done(t)
    ensures Mentions(myCall, x.line) && !Closes(x.line) ==>
              LogStep(myCall, t, x, freq) == Done(Tally(t.records, t.valid, t.nonContributing + 1))
    ensures IsLogged(myCall, x) && QsoOf(myCall, x, freq).Raised? ==>
              LogStep(myCall, t, x, freq) == Raised(QsoOf(myCall, x, freq).error)
    ensures IsLogged(myCall, x) && QsoOf(myCall, x, freq).Done? ==>
              LogStep(myCall, t, x, freq) == Done(Tally(t.records + [QsoOf(myCall, x, freq).value], t.valid + 1, t.nonContributing))
  {
  }

  /** The second loop, each record carrying its own line's frequency. */
  function SecondPass(myCall: string, xs: seq<Exchange>): Outcome<Tally>
    requires AllWellFormed(xs)
    decreases |xs|
  {
    if xs == [] then Done(Tally([], 0, 0))
    else
      var last := xs[|xs| - 1];
      assert last in xs;
      var t :- SecondPass(myCall, xs[..|xs| - 1]);
      LogStep(myCall, t, last, last.line.freq)
  }

  /** The exchanges the second loop logs, in order. */
  function Logged(myCall: string, xs: seq<Exchange>): (l: seq<Exchange>)
    ensures forall x :: x in l ==> x in xs && IsLogged(myCall, x)
    decreases |xs|
  {
    if xs == [] then []
    else
      var l := Logged(myCall, xs[..|xs| - 1]);
      if IsLogged(myCall, xs[|xs| - 1]) then l + [xs[|xs| - 1]] else l
  }

  /** How many exchanges mention the call. */
  function MentionCount(myCall: string, xs: seq<Exchange>): nat
    decreases |xs|
  {
    if xs == [] then 0
    else MentionCount(myCall, xs[..|xs| - 1]) + (if Mentions(myCall, xs[|xs| - 1].line) then 1 else 0)
  }

  /** A logged exchange that becomes a record without raising. */
  predicate Recordable(myCall: string, x: Exchange) {
    WellFormed(x.line) && QsoOf(myCall, x, x.line.freq).Done?
  }

  /** Every exchange of `l` becomes a record without raising. */
  predicate AllRecordable(myCall: string, l: seq<Exchange>) {
    forall i :: 0 <= i < |l| ==> Recordable(myCall, l[i])
  }

  /** The second loop raises exactly when a logged exchange cannot be
    * turned into a record. */
  lemma SecondPassRaises(myCall: string, xs: seq<Exchange>)
    requires AllWellFormed(xs)
    ensures SecondPass(myCall, xs).Done? <==> AllRecordable(myCall, Logged(myCall, xs))
  {
    var l := Logged(myCall, xs);
    if SecondPass(myCall, xs).Done? {
      SecondPassSpec(myCall, xs);
      forall i | 0 <= i < |l| ensures Recordable(myCall, l[i]) {
        assert l[i] in l;
      }
    }
    if AllRecordable(myCall, l) {
      SecondPassRecordable(myCall, xs);
    }
  }

  lemma {:induction false} SecondPassRecordable(myCall: string, xs: seq<Exchange>)
    requires AllWellFormed(xs)
    requires AllRecordable(myCall, Logged(myCall, xs))
    ensures SecondPass(myCall, xs).Done?
    decreases |xs|
  {
    if xs != [] {
      var init := xs[..|xs| - 1];
      ExchangesPrefix(xs, |xs| - 1);
      var l0, l := Logged(myCall, init), Logged(myCall, xs);
      assert forall i :: 0 <= i < |l0| ==> l[i] == l0[i];
      SecondPassRecordable(myCall, init);
      var last := xs[|xs| - 1];
      assert last in xs;
      LogStepCases(myCall, SecondPass(myCall, init).value, last, last.line.freq);
      if IsLogged(myCall, last) {
        assert l[|l0|] == last;
      }
    }
  }

  /** When the second loop returns, its records are those of the logged
    * exchanges, in order, `valid_qso_count` is their number, and together
    * with `non_contributing_count` it counts every exchange that mentions
    * the call. */
  lemma {:induction false} SecondPassSpec(myCall: string, xs: seq<Exchange>)
    requires AllWellFormed(xs) && SecondPass(myCall, xs).Done?
    ensures var t := SecondPass(myCall, xs).value;
            var l := Logged(myCall, xs);
            && t.valid == |t.records| == |l|
            && t.valid + t.nonContributing == MentionCount(myCall, xs)
            && forall i :: 0 <= i < |l| ==> QsoOf(myCall, l[i], l[i].line.freq) == Done(t.records[i])
    decreases |xs|
  {
    if xs != [] {
      var init := xs[..|xs| - 1];
      ExchangesPrefix(xs, |xs| - 1);
      SecondPassSpec(myCall, init);
      var l0 := Logged(myCall, init);
      assert forall i :: 0 <= i < |l0| ==> Logged(myCall, xs)[i] == l0[i];
    }
  }

  /** An exception in the second loop ends the parse. */
  lemma {:induction false} SecondPassSticky(myCall: string, xs: seq<Exchange>, k: nat)
    requires AllWellFormed(xs) && k <= |xs| && AllWellFormed(xs[..k])
    requires SecondPass(myCall, xs[..k]).Raised?
    ensures SecondPass(myCall, xs) == Raised(SecondPass(myCall, xs[..k]).error)
    decreases |xs| - k
  {
    if k < |xs| {
      SecondPassSnoc(myCall, xs, k);
      SecondPassSticky(myCall, xs, k + 1);
    } else {
      assert xs[..k] == xs;
    }
  }

  lemma ExchangesPrefix(xs: seq<Exchange>, k: nat)
    requires AllWellFormed(xs) && k <= |xs|
    ensures AllWellFormed(xs[..k])
  {
    assert forall x :: x in xs[..k] ==> x in xs;
  }

  /** One more exchange for the second loop. */
  lemma SecondPassSnoc(myCall: string, xs: seq<Exchange>, k: nat)
    requires AllWellFormed(xs) && k < |xs|
    ensures AllWellFormed(xs[..k]) && AllWellFormed(xs[..k + 1]) && xs[k] in xs
    ensures SecondPass(myCall, xs[..k]).Raised? ==>
              SecondPass(myCall, xs[..k + 1]) == Raised(SecondPass(myCall, xs[..k]).error)
    ensures SecondPass(myCall, xs[..k]).Done? ==>
              SecondPass(myCall, xs[..k + 1]) == LogStep(myCall, SecondPass(myCall, xs[..k]).value, xs[k], xs[k].line.freq)
  {
    ExchangesPrefix(xs, k);
    ExchangesPrefix(xs, k + 1);
    assert xs[..k + 1][..k] == xs[..k];
  }

  // ---- the frequency field as the script writes it ----

  /** The second loop as written: line 95 reads `freq_mhz`, which the
    * exchange tuples do not carry, so every record gets the frequency text
    * left over from the first loop, `freq`. */
  function SecondPassAsWritten(myCall: string, xs: seq<Exchange>, freq: string): Outcome<Tally>
    requires AllWellFormed(xs)
    decreases |xs|
  {
    if xs == [] then Done(Tally([], 0, 0))
    else
      var last := xs[|xs| - 1];
      assert last in xs;
      var t :- SecondPassAsWritten(myCall, xs[..|xs| - 1], freq);
      LogStep(myCall, t, last, freq)
  }

  /** One more exchange for the second loop as written. */
  lemma AsWrittenSnoc(myCall: string, xs: seq<Exchange>, k: nat, freq: string)
    requires AllWellFormed(xs) && k < |xs|
    ensures AllWellFormed(xs[..k]) && AllWellFormed(xs[..k + 1]) && xs[k] in xs
    ensures SecondPassAsWritten(myCall, xs[..k], freq).Raised? ==>
              SecondPassAsWritten(myCall, xs[..k + 1], freq) == Raised(SecondPassAsWritten(myCall, xs[..k], freq).error)
    ensures SecondPassAsWritten(myCall, xs[..k], freq).Done? ==>
              SecondPassAsWritten(myCall, xs[..k + 1], freq)
              == LogStep(myCall, SecondPassAsWritten(myCall, xs[..k], freq).value, xs[k], freq)
  {
    ExchangesPrefix(xs, k);
    ExchangesPrefix(xs, k + 1);
    assert xs[..k + 1][..k] == xs[..k];
  }

  /** An exception in the second loop as written ends it: the whole loop
    * raises that exception. */
  lemma AsWrittenSticky(myCall: string, xs: seq<Exchange>, k: nat, freq: string)
    requires AllWellFormed(xs) && k <= |xs| && AllWellFormed(xs[..k])
    requires SecondPassAsWritten(myCall, xs[..k], freq).Raised?
    ensures SecondPassAsWritten(myCall, xs, freq) == Raised(SecondPassAsWritten(myCall, xs[..k], freq).error)
  {
    AsWrittenFrequency(myCall, xs[..k], freq);
    SecondPassSticky(myCall, xs, k);
    AsWrittenFrequency(myCall, xs, freq);
  }

  /** The frequency text only fills the record's `freq` field. */
  lemma QsoOfFreq(myCall: string, x: Exchange, f: string, g: string)
    requires WellFormed(x.line)
    ensures QsoOf(myCall, x, f).Raised? ==> QsoOf(myCall, x, g) == QsoOf(myCall, x, f)
    ensures QsoOf(myCall, x, f).Done? ==>
              QsoOf(myCall, x, g).Done? && QsoOf(myCall, x, f).value == QsoOf(myCall, x, g).value.(freq := f)
  {
  }

  /** The loop as written raises exactly when the corrected one does, and
    * otherwise returns the same records and counts, except that every
    * record's frequency text is `freq`. */
  lemma {:induction false} AsWrittenFrequency(myCall: string, xs: seq<Exchange>, freq: string)
    requires AllWellFormed(xs)
    ensures SecondPass(myCall, xs).Raised? ==> SecondPassAsWritten(myCall, xs, freq) == SecondPass(myCall, xs)
    ensures SecondPass(myCall, xs).Done? ==>
              var t, w := SecondPass(myCall, xs).value, SecondPassAsWritten(myCall, xs, freq);
              && w.Done? && w.value.valid == t.valid && w.value.nonContributing == t.nonContributing
              && |w.value.records| == |t.records|
              && forall i :: 0 <= i < |t.records| ==> w.value.records[i] == t.records[i].(freq := freq)
    decreases |xs|
  {
    if xs != [] {
      var init := xs[..|xs| - 1];
      ExchangesPrefix(xs, |xs| - 1);
      var last := xs[|xs| - 1];
      assert last in xs;
      AsWrittenFrequency(myCall, init, freq);
      if SecondPass(myCall, init).Done? {
        var t0, w0 := SecondPass(myCall, init).value, SecondPassAsWritten(myCall, init, freq).value;
        QsoOfFreq(myCall, last, freq, last.line.freq);
        LogStepCases(myCall, t0, last, last.line.freq);
        LogStepCases(myCall, w0, last, freq);
      }
    }
  }

  /** A logged exchange whose own frequency text differs from `freq` is
    * written with the wrong frequency by the loop as written, and with its
    * own by the corrected loop. */
  lemma StaleFrequency(myCall: string, xs: seq<Exchange>, freq: string, i: nat)
    requires AllWellFormed(xs) && SecondPass(myCall, xs).Done?
    requires i < |Logged(myCall, xs)| && Logged(myCall, xs)[i].line.freq != freq
    ensures i < |SecondPass(myCall, xs).value.records|
    ensures SecondPass(myCall, xs).value.records[i].freq == Logged(myCall, xs)[i].line.freq
    ensures var w := SecondPassAsWritten(myCall, xs, freq);
            w.Done? && i < |w.value.records| && w.value.records[i].freq != Logged(myCall, xs)[i].line.freq
  {
    var l := Logged(myCall, xs);
    SecondPassSpec(myCall, xs);
    AsWrittenFrequency(myCall, xs, freq);
    assert l[i] in l;
    QsoOfFields(myCall, l[i], l[i].line.freq);
  }

  // ---- the whole parse ----

  /** `parse_wsjtx_log` on the lines of the file, each record carrying the
    * frequency of the line it was read from. */
  function ParseLog(myCall: string, lines: seq<string>): Outcome<Summary> {
    var s :- FirstPass(MatchAll(lines));
    var t :- SecondPass(myCall, s.exchanges);
    Done(Summary(t.records, t.valid, t.nonContributing, s.invalid))
  }

  /** `parse_wsjtx_log` as written: the second loop logs every record with
    * the frequency text of the last matching line. When no line matches
    * there are no exchanges, and the second loop never reads it. */
  function ParseLogAsWritten(myCall: string, lines: seq<string>): Outcome<Summary> {
    var s :- FirstPass(MatchAll(lines));
    var freq := if s.lastFreq.Some? then s.lastFreq.value else "";
    var t :- SecondPassAsWritten(myCall, s.exchanges, freq);
    Done(Summary(t.records, t.valid, t.nonContributing, s.invalid))
  }

  /** As written, every record of a parse carries the frequency text of
    * the file's last matching line. */
  lemma ParseLogAsWrittenFrequency(myCall: string, lines: seq<string>)
    requires ParseLogAsWritten(myCall, lines).Done?
    ensures var records := ParseLogAsWritten(myCall, lines).value.records;
            var m := Matched(MatchAll(lines));
            forall i :: 0 <= i < |records| ==> m != [] && records[i].freq == m[|m| - 1].freq
  {
    var ms := MatchAll(lines);
    var s := FirstPass(ms).value;
    FirstPassCounts(ms);
    var freq := if s.lastFreq.Some? then s.lastFreq.value else "";
    AsWrittenFrequency(myCall, s.exchanges, freq);
    SecondPassSpec(myCall, s.exchanges);
    if SecondPass(myCall, s.exchanges).value.records != [] {
      assert s.exchanges != [];
    }
  }

  /** The parse as written fails exactly when the corrected one does, with
    * the same exception, and otherwise has the same counts and the same
    * records but for their frequency text. */
  lemma ParseLogAsWrittenAgrees(myCall: string, lines: seq<string>)
    ensures ParseLog(myCall, lines).Raised? ==> ParseLogAsWritten(myCall, lines) == ParseLog(myCall, lines)
    ensures ParseLog(myCall, lines).Done? ==>
              var p, w := ParseLog(myCall, lines).value, ParseLogAsWritten(myCall, lines);
              && w.Done?
              && w.value.valid == p.valid && w.value.nonContributing == p.nonContributing
              && w.value.invalid == p.invalid
              && |w.value.records| == |p.records|
              && forall i :: 0 <= i < |p.records| ==> w.value.records[i] == p.records[i].(freq := w.value.records[i].freq)
  {
    var ms := MatchAll(lines);
    if FirstPass(ms).Done? {
      var s := FirstPass(ms).value;
      var freq := if s.lastFreq.Some? then s.lastFreq.value else "";
      AsWrittenFrequency(myCall, s.exchanges, freq);
    }
  }

  /** Every record the script logs has the sent report "599". */
  lemma AsWrittenSent(myCall: string, lines: seq<string>)
    requires ParseLogAsWritten(myCall, lines).Done?
    ensures forall q :: q in ParseLogAsWritten(myCall, lines).value.records ==> q.rstSent == "599"
  {
    var ms := MatchAll(lines);
    var s := FirstPass(ms).value;
    var freq := if s.lastFreq.Some? then s.lastFreq.value else "";
    AsWrittenFrequency(myCall, s.exchanges, freq);
    SecondPassSpec(myCall, s.exchanges);
    var l := Logged(myCall, s.exchanges);
    var t := SecondPass(myCall, s.exchanges).value;
    forall i | 0 <= i < |l| ensures t.records[i].rstSent == "599" {
      assert l[i] in l;
      QsoOfFields(myCall, l[i], l[i].line.freq);
    }
  }

  /** `parse_wsjtx_log`: the first loop, then the second, which reads the
    * `freq_mhz` the first one left behind. */
  method ParseWsjtxLog(myCall: string, lines: seq<string>) returns (outcome: Outcome<Summary>)
    ensures outcome == ParseLogAsWritten(myCall, lines)
  {
    var scan := ScanLines(MatchAll(lines));
    if scan.Raised? {
      return Raised(scan.error);
    }
    var freqMhz := if scan.value.lastFreq.Some? then scan.value.lastFreq.value else "";
    var tally := LogExchanges(myCall, scan.value.exchanges, freqMhz);
    if tally.Raised? {
      return Raised(tally.error);
    }
    outcome := Done(Summary(tally.value.records, tally.value.valid, tally.value.nonContributing,
                            scan.value.invalid));
  }

  /** The first loop (lines 54-64), over the matches of the lines. */
  method ScanLines(ms: seq<Option<RawLine>>) returns (scan: Outcome<Scan>)
    requires MatchesOk(ms)
    ensures scan == FirstPass(ms)
  {
    var exchanges: seq<Exchange> := [];
    var invalid := 0;
    var lastFreq: Option<string> := None;
    var i := 0;
    while i < |ms|
      invariant 0 <= i <= |ms|
      invariant MatchesOk(ms[..i])
      invariant FirstPass(ms[..i]) == Done(Scan(exchanges, invalid, lastFreq))
    {
      FirstPassSnoc(ms, i);
      var step := ScanMatch(Scan(exchanges, invalid, lastFreq), ms[i]);
      if step.Raised? {
        MatchesPrefix(ms, i + 1);
        FirstPassSticky(ms, i + 1);
        return Raised(step.error);
      }
      exchanges, invalid, lastFreq := step.value.exchanges, step.value.invalid, step.value.lastFreq;
      i := i + 1;
    }
    assert ms[..i] == ms;
    scan := Done(Scan(exchanges, invalid, lastFreq));
  }

  /** The body of the first loop (lines 55-64) for one line's match. */
  method ScanMatch(s: Scan, m: Option<RawLine>) returns (step: Outcome<Scan>)
    requires m.Some? ==> WellFormed(m.value)
    ensures step == ScanStep(s, m)
  {
    if m.None? {
      return Done(Scan(s.exchanges, s.invalid + 1, s.lastFreq));
    }
    var frequency := ParseFloat(m.value.freq);
    if frequency.None? {
      return Raised(ValueError);
    }
    step := Done(Scan(s.exchanges + [Exchange(m.value, frequency.value)], s.invalid, Some(m.value.freq)));
  }

  /** The second loop (lines 67-106), `freq_mhz` being `freq`. */
  method LogExchanges(myCall: string, exchanges: seq<Exchange>, freq: string) returns (tally: Outcome<Tally>)
    requires AllWellFormed(exchanges)
    ensures tally == SecondPassAsWritten(myCall, exchanges, freq)
  {
    var records: seq<QsoRecord> := [];
    var valid, nonContributing := 0, 0;
    var j := 0;
    while j < |exchanges|
      invariant 0 <= j <= |exchanges|
      invariant AllWellFormed(exchanges[..j])
      invariant SecondPassAsWritten(myCall, exchanges[..j], freq) == Done(Tally(records, valid, nonContributing))
    {
      AsWrittenSnoc(myCall, exchanges, j, freq);
      var step := LogExchange(myCall, Tally(records, valid, nonContributing), exchanges[j], freq);
      if step.Raised? {
        AsWrittenSticky(myCall, exchanges, j + 1, freq);
        return Raised(step.error);
      }
      records, valid, nonContributing := step.value.records, step.value.valid, step.value.nonContributing;
      j := j + 1;
    }
    assert exchanges[..j] == exchanges;
    tally := Done(Tally(records, valid, nonContributing));
  }

  /** The body of the second loop (lines 68-106) for one exchange. */
  method LogExchange(myCall: string, t: Tally, x: Exchange, freq: string) returns (step: Outcome<Tally>)
    requires WellFormed(x.line)
    ensures step == LogStep(myCall, t, x, freq)
  {
    LogStepCases(myCall, t, x, freq);
    step := Done(t);
    if Mentions(myCall, x.line) {
      if Closes(x.line) {
        var q := QsoOf(myCall, x, freq);
        if q.Raised? {
          return Raised(q.error);
        }
        step := Done(Tally(t.records + [q.value], t.valid + 1, t.nonContributing));
      } else {
        step := Done(Tally(t.records, t.valid, t.nonContributing + 1));
      }
    }
  }

  /** What a parse that returns says about the file: every line is either
    * invalid or an exchange, every record is counted once as valid, and
    * valid and non-contributing exchanges are those that mention the call. */
  lemma ParseLogCounts(myCall: string, lines: seq<string>)
    requires ParseLog(myCall, lines).Done?
    ensures var sum := ParseLog(myCall, lines).value;
            var xs := FirstPass(MatchAll(lines)).value.exchanges;
            && sum.invalid + |xs| == |lines|
            && sum.valid == |sum.records|
            && sum.valid + sum.nonContributing == MentionCount(myCall, xs)
  {
    var xs := FirstPass(MatchAll(lines)).value.exchanges;
    FirstPassCounts(MatchAll(lines));
    SecondPassSpec(myCall, xs);
  }
}
