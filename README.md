# ADIFmaker in Dafny

A model of the two scripts of ADIFmaker, each of which reads the `ALL.TXT`
log that WSJT-X keeps of every FT8 decode and transmission:

- `WSJT-X_to_ADIF.py` matches every stripped line against its pattern.
  Among the matching lines it logs as a QSO each one whose message contains
  the operator's call and "73", and counts those that contain the call but
  no "73". It then writes the QSO records as an ADIF file: a header ended
  by `<EOH>`, then one line of `<NAME:length>value` data specifiers per
  record, ended by `<EOR>`.
- `WSJT-X_reader.py` makes one pass over the lines. It groups the lines
  mentioning the operator's call into conversations, with a partner,
  location, band, offset, signal reports and start and end times, and it
  counts contributing, non-contributing and unmatched lines.

Modules:

- `PyText`: the Python string behaviour both scripts rely on (`strip`,
  `split`, `in`, `float` on a run of digits and dots) and the exceptions
  (`Outcome`).
- `PyRegex` and `WsjtxLine`: the regular-expression tokens.
- `PyDateTime`: `strptime`/`strftime` on a time stamp.
- `AdifBand`, `AdifGrammar`, `AdifParse`, `AdifFormat`: `WSJT-X_to_ADIF.py`.
- `ReaderBand`, `ReaderGrammar`, `ReaderProcess`: `WSJT-X_reader.py`.

The operator's call (`MyCall`) is a parameter, and the log is a sequence
of lines. Frequencies are exact decimals. Band edges are kept in half-kHz,
so the 60 m edge at 5258.5 kHz is exact. The loops of both scripts are
methods proved equal to specification functions that read the log one
line at a time, and the properties are proved about those functions.

## Model

| member | source | states |
|---|---|---|
| AdifBand.FirstBand | WSJT-X_to_ADIF.py:34-38 | the result is the name of the first row with `low <= kHz < high`, or "unknown" when no row holds the frequency |
| AdifBand.BandsAscending | WSJT-X_to_ADIF.py:6-21 | every row is a non-empty range, and each row ends no later than the next one begins |
| AdifBand.InAtMostOneBand | WSJT-X_to_ADIF.py:36 | with half-open bounds, no frequency lies in two rows |
| AdifBand.GetBandInRow | WSJT-X_to_ADIF.py:34-38 | `get_band` returns the name of the row holding the frequency |
| AdifBand.GetBandUnknown | WSJT-X_to_ADIF.py:38 | `get_band` returns "unknown" exactly when no row holds the frequency |
| AdifBand.TwentyMetreTop | WSJT-X_to_ADIF.py:36 | exactly 14.350 MHz is not 20 m; it is in no band at all |
| AdifBand.TwentyMetreBottom | WSJT-X_to_ADIF.py:36 | exactly 14.000 MHz is 20 m |
| AdifGrammar.MatchLine | WSJT-X_to_ADIF.py:51 | every group of a match has the shape its part of the pattern admits |
| AdifGrammar.MatchRender | WSJT-X_to_ADIF.py:51 | a well-formed line, with any whitespace between its columns, matches and gives back exactly its own nine groups |
| AdifGrammar.ScanRender | WSJT-X_to_ADIF.py:55 | indentation and trailing whitespace (the line feed among it) are stripped before matching and do not change the groups |
| PyText.ParseFloat | WSJT-X_to_ADIF.py:58 | `float` of a run of digits and dots succeeds exactly when the run has a digit and at most one dot |
| PyText.TwoDotsRaise | WSJT-X_to_ADIF.py:58 | "1.2.3" passes `[\d.]+` but `float` raises on it |
| PyText.ParseFloatPoint | WSJT-X_to_ADIF.py:58 | `float("W.F")` is the exact decimal WF / 10^\|F\| |
| PyText.Strip | WSJT-X_to_ADIF.py:55 | `strip` removes exactly the leading and trailing whitespace |
| PyText.Split | WSJT-X_to_ADIF.py:80 | `split()` yields non-empty tokens without whitespace |
| PyText.SplitJoin | WSJT-X_to_ADIF.py:80 | tokens joined by single spaces split back into the same tokens |
| PyText.ContainsIff | WSJT-X_to_ADIF.py:70 | `sub in s` holds exactly when `sub` occurs at some index of `s` |
| PyText.RR73Contains73 | WSJT-X_to_ADIF.py:72 | a message containing "RR73" contains "73" |
| AdifParse.MatchAll | WSJT-X_to_ADIF.py:54-55 | one match attempt per line, in file order, on the stripped line |
| AdifParse.ScanStep | WSJT-X_to_ADIF.py:55-64 | a line that does not match adds one to the invalid count; a matching line is appended as an exchange with its `float` frequency, or raises when `float` fails |
| AdifParse.FirstPassRaises | WSJT-X_to_ADIF.py:54-64 | the first loop raises exactly when some matching line's frequency is not a number |
| AdifParse.FirstPassCounts | WSJT-X_to_ADIF.py:54-64 | the exchanges are as many as the matching lines, the invalid count is the number of lines that do not match, and `freq_mhz` is left holding the last matching line's frequency |
| AdifParse.FirstPassSpec | WSJT-X_to_ADIF.py:54-61 | the exchanges are the matching lines in file order, each with `float` of its own frequency |
| AdifParse.ScanLines | WSJT-X_to_ADIF.py:54-64 | the first loop computes the first-pass outcome |
| AdifParse.ScanMatch | WSJT-X_to_ADIF.py:55-64 | one pass of the first loop is one scan step |
| AdifParse.ClosesIff73 | WSJT-X_to_ADIF.py:72 | the `"73" in message or "RR73" in message` test holds exactly when "73" occurs in the message |
| AdifParse.Sender | WSJT-X_to_ADIF.py:80-86 | the sender is the first token whenever the operator's call is one of the first two tokens; fewer than two tokens raise IndexError, and two other calls raise AttributeError at `sender.strip()` |
| AdifParse.QsoOfOutcome | WSJT-X_to_ADIF.py:74-93 | a time stamp that is no real date raises ValueError first; otherwise a record is made exactly when one of the first two tokens is the operator's call, and otherwise the sender's exception propagates |
| AdifParse.QsoOfFields | WSJT-X_to_ADIF.py:74-103 | the record's call is the first token, band is `get_band` of the line's frequency, date is the century plus the six date digits, time is HHMM, and the rest are the line's groups and the constants '599', 'AA00aa' and 'unknown' |
| AdifParse.RecordOfFields | WSJT-X_to_ADIF.py:92-103 | each field of the appended dict, in terms of the parsed date and time |
| AdifParse.DateTextRoundTrip | WSJT-X_to_ADIF.py:74-76 | `%Y%m%d` of the parsed stamp is its six date digits prefixed by 20 (00-68) or 19 (69-99), and `%H%M` is its first four time digits |
| PyDateTime.StrpTime | WSJT-X_to_ADIF.py:74 | a parsed stamp is a valid date and time between 1969 and 2068 |
| PyDateTime.StampRoundTrip | WSJT-X_to_ADIF.py:74-76 | writing a parsed stamp back gives its own digits, with the century `%y` chose |
| PyDateTime.LeapDays | WSJT-X_to_ADIF.py:74 | 29 February is accepted in 2024 and 2000 but not in 2023, and second 60 is refused |
| AdifParse.LogStepCases | WSJT-X_to_ADIF.py:68-106 | a line without the call changes nothing; with the call but no "73" it counts as non-contributing; with both it appends its record and counts as valid, or raises that record's exception |
| AdifParse.SecondPassRaises | WSJT-X_to_ADIF.py:67-106 | the second loop raises exactly when a logged exchange cannot be turned into a record |
| AdifParse.SecondPassSpec | WSJT-X_to_ADIF.py:67-106 | `valid_qso_count == len(qso_data)`, both equal the number of logged exchanges, valid plus non-contributing equals the number of exchanges mentioning the call, and record i is the record of logged exchange i |
| AdifParse.LogExchanges | WSJT-X_to_ADIF.py:67-106 | the second loop, writing the one given `freq_mhz` text into every record, computes the second pass as written |
| AdifParse.LogExchange | WSJT-X_to_ADIF.py:68-106 | one pass of the second loop is one log step with the given `freq_mhz` text |
| AdifParse.ParseWsjtxLog | WSJT-X_to_ADIF.py:41-108 | `parse_wsjtx_log` as written: the first loop, then the second with the `freq_mhz` the first loop left behind |
| AdifParse.ParseLogCounts | WSJT-X_to_ADIF.py:41-108 | invalid lines plus matching lines equal the lines read, and valid plus non-contributing equals the matching lines mentioning the call |
| AdifParse.AsWrittenFrequency | WSJT-X_to_ADIF.py:95 | the loop as written logs the same records as the corrected loop, except that every FREQ is the one stale text |
| AdifParse.ParseLogAsWrittenFrequency | WSJT-X_to_ADIF.py:95 | as written, every record of a parse carries the frequency text of the last matching line of the file |
| AdifParse.ParseLogAsWrittenAgrees | WSJT-X_to_ADIF.py:41-108 | the parse as written raises exactly when the corrected one does, with the same exception; otherwise it has the same three counts and the same records except for FREQ |
| AdifParse.AsWrittenSent | WSJT-X_to_ADIF.py:99 | every record the parse logs has the sent report "599" |
| AdifParse.StaleFrequency | WSJT-X_to_ADIF.py:95 | a logged line whose frequency differs from the stale text keeps its own frequency in the corrected parse and loses it as written |
| AdifFormat.WriteAdif | WSJT-X_to_ADIF.py:111-127 | the text written is the header, then every record's text in order, each written by the template as written (RST_RCVD's length tag is `len(rst_sent)`) |
| AdifFormat.AppendRecord | WSJT-X_to_ADIF.py:115-127 | one pass of the loop appends the next record's text as written |
| AdifFormat.TemplatePairs | WSJT-X_to_ADIF.py:30 | the template lists CALL, BAND, FREQ, MODE, QSO_DATE, TIME_ON, RST_SENT, RST_RCVD, MY_GRIDSQUARE and GRIDSQUARE in that order, each with its record field |
| AdifFormat.TemplateSpecTag | WSJT-X_to_ADIF.py:116-125 | every specifier's tag is well formed; the length tag is the length of the value except at RST_RCVD, whose tag is the number passed for it |
| AdifFormat.FormatRecordRoundTrip | WSJT-X_to_ADIF.py:116-126 | with RST_RCVD's tag set to its own length, reading the record back gives exactly its ten name/value pairs and stops after `<EOR>` |
| AdifFormat.AsWrittenMisreads | WSJT-X_to_ADIF.py:123 | whenever the received report's length differs from the sent report's, the record as written does not read back as its own fields |
| AdifFormat.AsWrittenAgrees | WSJT-X_to_ADIF.py:123 | when the two reports have the same length, the record as written is the corrected one |
| AdifFormat.RecordsRoundTrip | WSJT-X_to_ADIF.py:115-127 | corrected: the records written one after another read back as the records' fields, in order |
| AdifFormat.AdifRoundTrip | WSJT-X_to_ADIF.py:113-127 | corrected: the whole file, header included, reads back as the fields of every record |
| AdifFormat.FirstRecordRead | WSJT-X_to_ADIF.py:116-126 | as written, a record followed by more text reads back as its fields followed by some records exactly when its two reports have the same length and the text after it reads back as those records |
| AdifFormat.AsWrittenRecordsRead | WSJT-X_to_ADIF.py:115-127 | as written, the records read back as their fields exactly when every record's received report is as long as its sent report |
| AdifFormat.AdifReadsBack | WSJT-X_to_ADIF.py:111-127 | the file `write_adif` writes reads back as every record's fields exactly when every received report is as long as its sent report, and the file is then the corrected one |
| AdifFormat.ScriptFileReadsBack | WSJT-X_to_ADIF.py:134-135 | the file written from what the parse as written logged reads back as the records' fields exactly when every received report has three characters |
| ReaderBand.FirstBand | WSJT-X_reader.py:30-36 | the result is the name of the first row with `low <= kHz <= high`, or "Unknown" when no row holds the frequency |
| ReaderBand.BandsAscending | WSJT-X_reader.py:7-22 | every row is a non-empty range, and each row ends strictly before the next one begins |
| ReaderBand.InAtMostOneBand | WSJT-X_reader.py:34 | even with inclusive bounds, no frequency lies in two rows |
| ReaderBand.GetBandInRow | WSJT-X_reader.py:30-36 | `get_band` returns the name of the row holding the frequency |
| ReaderBand.GetBandUnknown | WSJT-X_reader.py:36 | `get_band` returns "Unknown" exactly when no row holds the frequency |
| ReaderBand.TwentyMetreEdges | WSJT-X_reader.py:34 | both 14.000 and 14.350 MHz are 20 m |
| ReaderGrammar.MatchLine | WSJT-X_reader.py:25-28 | every group of a match has the shape its part of the pattern admits, and the message is non-empty |
| ReaderGrammar.MessageTail | WSJT-X_reader.py:27 | `\s+(.+)` matches exactly when some character after the first whitespace is not a line feed; an all-whitespace tail backtracks to a one-character message |
| ReaderGrammar.GiveBack | WSJT-X_reader.py:27 | the backtracking of `\s+` into `.+` finds a character that is not a line feed when there is one |
| ReaderGrammar.MatchRender | WSJT-X_reader.py:25-28 | a well-formed line, with any whitespace between its columns and an optional line feed, matches and gives back exactly its own groups |
| ReaderGrammar.BlankMessages | WSJT-X_reader.py:27 | after the offset, " \n" does not match and "  \n" matches with the message " " |
| ReaderGrammar.IndentedUnmatched | WSJT-X_reader.py:48 | the line is not stripped, so an indented line does not match |
| ReaderProcess.Frequency | WSJT-X_reader.py:32 | `float` of a frequency the pattern admits never raises |
| ReaderProcess.EntryOf | WSJT-X_reader.py:53-73 | the message is stripped, the time stamp is date "_" time, the band is `get_band` of the frequency, and the offset is kept as text |
| ReaderProcess.Partner | WSJT-X_reader.py:70 | the partner is the second token when the first is the operator's call and otherwise the first; IndexError exactly when there is no token, or the only token is the operator's call |
| ReaderProcess.Location | WSJT-X_reader.py:71 | the location is the third token unless there is none or it is '73' or 'RR73' |
| ReaderProcess.Start | WSJT-X_reader.py:68-78 | a new conversation raises exactly when its partner does, and otherwise starts at this line's time with this message only and no end time |
| ReaderProcess.WithLast | WSJT-X_reader.py:83 | changing the current conversation changes the last element of `conversations` and nothing else |
| ReaderProcess.OpensIffNoCurrent | WSJT-X_reader.py:66 | every stored message contains the call, so a conversation opens exactly when none is current |
| ReaderProcess.FinishOk | WSJT-X_reader.py:85-95 | updating the reports and end time keeps the messages, and the end time is set exactly when the new message contains "73" |
| ReaderProcess.OpenGood | WSJT-X_reader.py:66-80 | opening a conversation keeps the invariant of the loop |
| ReaderProcess.AppendGood | WSJT-X_reader.py:81-83 | adding a message to the current conversation keeps the invariant of the loop |
| ReaderProcess.AdvanceGood | WSJT-X_reader.py:53-95 | a matching line keeps the invariant, adds one to exactly one counter, and can raise only IndexError |
| ReaderProcess.StepGood | WSJT-X_reader.py:47-95 | any line keeps the invariant, adds one to exactly one counter, and can raise only IndexError |
| ReaderProcess.Run | WSJT-X_reader.py:38-97 | after a pass: `total_conversations == len(conversations)`; contributing plus non-contributing plus unmatched equals the lines read; every message contains the call; only a conversation's last message contains "73"; the end time is set exactly then; every conversation but the last is closed; one is current exactly when the last is open |
| ReaderProcess.AdvanceEffect | WSJT-X_reader.py:66-95 | a contributing line either opens a conversation with this partner, location, band, offset and start time, or is appended to the current one; the reports are those the `and`/`or` test as written files; the conversation ends at this line's time exactly when the message contains "73" |
| ReaderProcess.OpenEffect | WSJT-X_reader.py:66-95 | the fields of a newly opened conversation, with the reports its first message files by the test as written |
| ReaderProcess.AppendEffect | WSJT-X_reader.py:81-95 | appending keeps the other conversations, the start time, partner, location, band and offset, extends the messages by this one, and files the reports by the test as written |
| ReaderProcess.OneLineConversation | WSJT-X_reader.py:93-94 | a conversation opened by a message containing "73" ends at its own start time |
| ReaderProcess.ReportsAsWrittenCases | WSJT-X_reader.py:86-90 | as written: fewer than three tokens change no report; a third token starting with '-' always becomes the report to me; the report from me changes only to a '+' token when the second token is the call and the first is not |
| ReaderProcess.ReportsCases | WSJT-X_reader.py:86-90 | corrected: only the two report fields change; a signed third token becomes the report to me when the first token is the call, and the report from me when only the second is |
| ReaderProcess.ReportsMisfiled | WSJT-X_reader.py:87-89 | for "OTHER MYCALL -NN", as written the report goes to me, and corrected it goes from me |
| ReaderProcess.AdvanceMessages | WSJT-X_reader.py:55-83 | a matching line adds its message to the conversations exactly when it contributes |
| ReaderProcess.StepMessages | WSJT-X_reader.py:48-83 | any line adds its message exactly when it matches and contributes, and counts as unmatched exactly when it does not match |
| ReaderProcess.RunMessages | WSJT-X_reader.py:47-83 | the conversations' messages, concatenated in order, are exactly the contributing messages in file order; the contributing and unmatched counts are their numbers |
| ReaderProcess.RunRaisedSticky | WSJT-X_reader.py:47-95 | an exception ends the pass |
| ReaderProcess.RunStep | WSJT-X_reader.py:47-95 | one more line is one more step of the pass |
| ReaderProcess.ProcessAllTxt | WSJT-X_reader.py:38-97 | `process_all_txt` computes the specified pass |
| ReaderProcess.ProcessLine | WSJT-X_reader.py:48-95 | one pass of the loop is one step |
| ReaderProcess.ProcessEntry | WSJT-X_reader.py:53-95 | the in-place updates of a matching line, with the reports filed by the `and`/`or` test as written, are one advance |
| ReaderProcess.TwoLineContact | WSJT-X_reader.py:66-95 | a call from another station with a locator, then a sign-off with "73", make one conversation with that partner and location that ends at the sign-off's time |
| ReaderProcess.ExampleFrequency | WSJT-X_reader.py:32 | "14.074" is the exact decimal 14.074 |
| ReaderProcess.ExampleBand | WSJT-X_reader.py:30-36 | 14.074 MHz is 20 m |
| ReaderProcess.TwoLineExample | WSJT-X_reader.py:47-95 | for call M7KCM: "K3TJB M7KCM EM77" at 240927_220100 opens a conversation with K3TJB at EM77 on 20m, offset 373, and "M7KCM K3TJB 73" at 240927_220115 is appended to it and ends it at that time |

## Left out

- File input and output: the scripts' `open`, `readlines` and file iteration. The models take the log as a sequence of lines, and `WriteAdif` returns the text it would write.
- `main()` of `WSJT-X_to_ADIF.py` and the module-level run and print loop of `WSJT-X_reader.py`: beyond passing the parse's records to `write_adif` (AdifFormat.ScriptFileReadsBack), they only print what the modelled functions return.
- Binary floating point: `float(freq) * 1000` is computed exactly, so rounding at a band edge is not modelled.
- `float` is modelled only on runs of digits and dots, the only text either pattern lets through. Exponents, signs and underscores cannot reach it.
- Unicode digits and letters in `\d` and `\w`: only ASCII is modelled. `\s`, `split()` and `strip()` use Python's full whitespace set.
- `MyCall` is a parameter of every operation rather than a module constant.
- ReaderProcess.State: while `current_conversation` is set, it is the same dict as the last element of `conversations`. The model keeps a flag saying that the last conversation is current, and each in-place change replaces that last element. Aliasing between the two names is not modelled as such.
- ReaderProcess.TwoLineExample: it starts from the two lines' messages, time stamps, band and offset, not from the raw lines. The band of "14.074" is ExampleBand, and reading any such line's groups is ReaderGrammar.MatchRender.
- AdifFormat.ReadAdif and the reading functions beside it are this model's own reader of the file format. They state what the written text means; neither script reads ADIF.

## Findings

The operations model the scripts as written: `ParseWsjtxLog`, `WriteAdif`
and the reader's pass all behave as the rows below describe. Each corrected
definition (`SecondPass`, `FormatRecord`, `Reports`) sits beside them, with
its intended property proved and a lemma relating it to the code as written.

| source | as written | input that shows it | evidently intended | confidence | as-written member | corrected member |
|---|---|---|---|---|---|---|
| WSJT-X_to_ADIF.py:95 | every record's FREQ is `freq_mhz`, which after the first loop holds the frequency text of the file's last matching line | two logged contacts, on 14.074 and then 7.074: both records get FREQ 7.074 | each record carries its own line's frequency text | not executed | AdifParse.ParseLogAsWrittenFrequency | AdifParse.SecondPassSpec |
| WSJT-X_to_ADIF.py:123 | RST_RCVD's length tag is `rst_len`, the length of rst_sent, always 3 | a received report "-5" is written `<RST_RCVD:3>-5<`, so a reader takes "-5<" as the report and loses the next tag | the tag carries `len(qso['rst_rcvd'])` | not executed | AdifFormat.AdifReadsBack | AdifFormat.AdifRoundTrip |
| WSJT-X_reader.py:87-89 | `and` binds tighter than `or`, so any third token starting with '-' is stored as the report to me, whoever the first token is | MyCall M7KCM, message "K3TJB M7KCM -12" (the report the operator sent) is filed as `signal_report_to_me` | the sign test applies to both branches: to me when the first token is the call, from me when the second is | not executed | ReaderProcess.ReportsMisfiled | ReaderProcess.ReportsCases |
