/*
 * `write_adif` of WSJT-X_to_ADIF.py and the ADIF text it produces: a
 * header, then one line per QSO record made of length-prefixed data
 * specifiers `<NAME:length>value` and ended by `<EOR>`. A reader of
 * data specifiers is defined alongside, so that what the writer promises
 * can be stated as a round trip. Reading the file as the script writes it
 * gives back every field of every record exactly when each received report
 * is as long as the sent report; with RST_RCVD's length tag corrected, it
 * always does.
 */
module AdifFormat {
  import opened PyText
  import opened AdifParse

  const ADIF_HEADER: string := "ADIF Export from WSJT-X ALL.TXT\n<EOH>\n"

  /** A data specifier as the template fills it in: `length` is the text
    * of the length tag, `str()` of whatever number the script passes,
    * which is not necessarily |value|. */
  datatype Spec = Spec(name: string, length: string, value: string)

  function SpecText(s: Spec): string {
    "<" + (s.name + (":" + (s.length + (">" + s.value))))
  }

  function SpecsText(ss: seq<Spec>): string
    decreases |ss|
  {
    if ss == [] then [] else SpecText(ss[0]) + SpecsText(ss[1..])
  }

  /** The i-th of the ten specifiers of the QSO template, with the number
    * written in the length tag of RST_RCVD given separately. */
  function TemplateSpec(q: QsoRecord, rstRcvdLength: nat, i: nat): Spec
    requires i < 10
  {
    if i == 0 then Spec("CALL", NatToString(|q.call|), q.call)
    else if i == 1 then Spec("BAND", NatToString(|q.band|), q.band)
    else if i == 2 then Spec("FREQ", NatToString(|q.freq|), q.freq)
    else if i == 3 then Spec("MODE", NatToString(|q.mode|), q.mode)
    else if i == 4 then Spec("QSO_DATE", NatToString(|q.qsoDate|), q.qsoDate)
    else if i == 5 then Spec("TIME_ON", NatToString(|q.timeOn|), q.timeOn)
    else if i == 6 then Spec("RST_SENT", NatToString(|q.rstSent|), q.rstSent)
    else if i == 7 then Spec("RST_RCVD", NatToString(rstRcvdLength), q.rstRcvd)
    else if i == 8 then Spec("MY_GRIDSQUARE", NatToString(|q.myGrid|), q.myGrid)
    else Spec("GRIDSQUARE", NatToString(|q.grid|), q.grid)
  }

  /** The specifiers of the template from the i-th on. */
  function TemplateFrom(q: QsoRecord, rstRcvdLength: nat, i: nat): seq<Spec>
    requires i <= 10
    decreases 10 - i
  {
    if i == 10 then [] else [TemplateSpec(q, rstRcvdLength, i)] + TemplateFrom(q, rstRcvdLength, i + 1)
  }

  /** The ten specifiers of the template, in order. */
  function Specs(q: QsoRecord, rstRcvdLength: nat): seq<Spec> {
    TemplateFrom(q, rstRcvdLength, 0)
  }

  /** The template as written: both report tags take `rst_len`, which is
    * `len(qso['rst_sent'])`. */
  function FormatRecordAsWritten(q: QsoRecord): string {
    SpecsText(Specs(q, |q.rstSent|)) + "<EOR>\n"
  }

  /** The template with RST_RCVD's tag carrying the length of its own value. */
  function FormatRecord(q: QsoRecord): string {
    SpecsText(Specs(q, |q.rstRcvd|)) + "<EOR>\n"
  }

  /** One record, by the template as written or by the corrected one. */
  function Record(q: QsoRecord, corrected: bool): string {
    if corrected then FormatRecord(q) else FormatRecordAsWritten(q)
  }

  /** The records one after the other, in the order written. */
  function RecordsText(qs: seq<QsoRecord>, corrected: bool): string
    decreases |qs|
  {
    if qs == [] then [] else RecordsText(qs[..|qs| - 1], corrected) + Record(qs[|qs| - 1], corrected)
  }

  /** The whole file `write_adif` leaves behind. */
  function AdifFile(qs: seq<QsoRecord>): string {
    ADIF_HEADER + RecordsText(qs, false)
  }

  /** The file the corrected template would write. */
  function CorrectedAdifFile(qs: seq<QsoRecord>): string {
    ADIF_HEADER + RecordsText(qs, true)
  }

  /** `write_adif`: the header, then each record in turn. */
  method WriteAdif(qs: seq<QsoRecord>) returns (text: string)
    ensures text == AdifFile(qs)
  {
    text := ADIF_HEADER;
    var i := 0;
    while i < |qs|
      invariant 0 <= i <= |qs|
      invariant text == ADIF_HEADER + RecordsText(qs[..i], false)
    {
      text := AppendRecord(text, qs, i);
      i := i + 1;
    }
    assert qs[..i] == qs;
  }

  /** One pass of the loop of `write_adif`: the record is written after
    * those written so far. */
  method AppendRecord(text: string, qs: seq<QsoRecord>, i: nat) returns (t: string)
    requires i < |qs| && text == ADIF_HEADER + RecordsText(qs[..i], false)
    ensures t == ADIF_HEADER + RecordsText(qs[..i + 1], false)
  {
    assert qs[..i + 1][..i] == qs[..i];
    RecordsTextSnoc(qs[..i + 1], qs[..i], qs[i], false);
    Associative(ADIF_HEADER, RecordsText(qs[..i], false), FormatRecordAsWritten(qs[i]));
    t := text + FormatRecordAsWritten(qs[i]);
  }

  /** Seen from the front, the text is the first record, then the others. */
  lemma {:induction false} RecordsTextCons(qs: seq<QsoRecord>, corrected: bool)
    requires qs != []
    ensures RecordsText(qs, corrected) == Record(qs[0], corrected) + RecordsText(qs[1..], corrected)
    decreases |qs|
  {
    if |qs| == 1 {
      assert qs[..0] == [] && qs[1..] == [];
    } else {
      var init, tail, last := qs[..|qs| - 1], qs[1..], qs[|qs| - 1];
      RecordsTextCons(init, corrected);
      assert init[0] == qs[0];
      assert tail[..|tail| - 1] == init[1..] && tail[|tail| - 1] == last;
      RecordsTextSnoc(tail, init[1..], last, corrected);
      RecordsTextSnoc(qs, init, last, corrected);
      Regroup(RecordsText(qs, corrected), RecordsText(init, corrected), RecordsText(tail, corrected),
              Record(qs[0], corrected), RecordsText(init[1..], corrected), Record(last, corrected));
    }
  }

  lemma Regroup(whole: string, init: string, tail: string, first: string, middle: string, last: string)
    requires whole == init + last && init == first + middle && tail == middle + last
    ensures whole == first + tail
  {
    Associative(first, middle, last);
  }

  lemma RecordsTextSnoc(qs: seq<QsoRecord>, init: seq<QsoRecord>, last: QsoRecord, corrected: bool)
    requires qs != [] && init == qs[..|qs| - 1] && last == qs[|qs| - 1]
    ensures RecordsText(qs, corrected) == RecordsText(init, corrected) + Record(last, corrected)
  {
  }

  // ---- reading data specifiers back ----

  /** The index of the first `c` in `s`, or |s|. */
  function UpTo(c: char, s: string): (n: nat)
    ensures n <= |s| && (n == |s| || s[n] == c)
    ensures forall i :: 0 <= i < n ==> s[i] != c
  {
    if s == [] || s[0] == c then 0 else 1 + UpTo(c, s[1..])
  }

  /** One data specifier at the start of `s`: its name, its value (as many
    * characters as the length tag says) and the text after it. */
  function ReadSpec(s: string): (r: Option<(string, string, string)>)
    ensures r.Some? ==> |r.value.2| < |s|
  {
    if s == [] || s[0] != '<' then None else ReadTag(s[1..])
  }

  /** After the `<`: the name runs up to the first colon. */
  function ReadTag(t: string): (r: Option<(string, string, string)>)
    ensures r.Some? ==> |r.value.2| < |t|
  {
    var k := UpTo(':', t);
    if k == |t| then None else ReadLength(t[..k], t[k + 1..])
  }

  /** After the colon: one or more digits, then `>`. */
  function ReadLength(name: string, u: string): (r: Option<(string, string, string)>)
    ensures r.Some? ==> |r.value.2| < |u|
  {
    var d := Span(Digit, u);
    if d == 0 || d == |u| || u[d] != '>' then None
    else ReadValue(name, DigitsValue(u[..d]), u[d + 1..])
  }

  /** After the `>`: exactly n characters of value. */
  function ReadValue(name: string, n: nat, v: string): (r: Option<(string, string, string)>)
    ensures r.Some? ==> |r.value.2| <= |v|
  {
    if n > |v| then None else Some((name, v[..n], v[n..]))
  }

  /** The text starts with the end-of-record tag. */
  predicate StartsEor(s: string) {
    |s| >= 5 && s[0] == '<' && s[1] == 'E' && s[2] == 'O' && s[3] == 'R' && s[4] == '>'
  }

  /** The specifiers of one record up to its `<EOR>`: the names and values
    * read, and the text after the `<EOR>`. */
  function ReadFields(s: string): (r: Option<(seq<(string, string)>, string)>)
    ensures r.Some? ==> |r.value.1| < |s|
    decreases |s|
  {
    if StartsEor(s) then Some(([], s[5..]))
    else
      match ReadSpec(s)
      case None => None
      case Some(spec) =>
        var more :- ReadFields(spec.2);
        Some(([(spec.0, spec.1)] + more.0, more.1))
  }

  /** The records of a file body, each ended by `<EOR>` and a line feed. */
  function ReadRecords(s: string): Option<seq<seq<(string, string)>>>
    decreases |s|
  {
    if s == [] then Some([])
    else
      var r :- ReadFields(s);
      if r.1 == [] || r.1[0] != '\n' then None
      else Cons(r.0, ReadRecords(r.1[1..]))
  }

  /** One record in front of what a reading of the rest gives. */
  function Cons(fields: seq<(string, string)>, r: Option<seq<seq<(string, string)>>>): Option<seq<seq<(string, string)>>> {
    if r.None? then None else Some([fields] + r.value)
  }

  /** An ADIF file written by the script: the header, then the records. */
  function ReadAdif(text: string): Option<seq<seq<(string, string)>>> {
    if ADIF_HEADER <= text then ReadRecords(text[|ADIF_HEADER|..]) else None
  }

  /** What a QSO record is meant to contribute to the log. */
  function Fields(q: QsoRecord): seq<(string, string)> {
    [ ("CALL", q.call), ("BAND", q.band), ("FREQ", q.freq), ("MODE", q.mode),
      ("QSO_DATE", q.qsoDate), ("TIME_ON", q.timeOn), ("RST_SENT", q.rstSent),
      ("RST_RCVD", q.rstRcvd), ("MY_GRIDSQUARE", q.myGrid), ("GRIDSQUARE", q.grid) ]
  }

  /** Field names are upper-case letters and underscores. */
  predicate NameOk(n: string) {
    n != [] && forall i :: 0 <= i < |n| ==> ('A' <= n[i] <= 'Z' || n[i] == '_')
  }

  /** A specifier with a well-formed tag. */
  predicate TagOk(s: Spec) {
    NameOk(s.name) && s.length != [] && AllIn(s.length, Digit)
  }

  /** A specifier whose length tag is the length of its value. */
  predicate Honest(s: Spec) {
    TagOk(s) && DigitsValue(s.length) == |s.value|
  }

  predicate AllHonest(ss: seq<Spec>) {
    forall i :: 0 <= i < |ss| ==> Honest(ss[i])
  }

  function Pairs(ss: seq<Spec>): (ps: seq<(string, string)>)
    ensures |ps| == |ss|
    ensures forall i :: 0 <= i < |ss| ==> ps[i] == (ss[i].name, ss[i].value)
    decreases |ss|
  {
    if ss == [] then [] else [(ss[0].name, ss[0].value)] + Pairs(ss[1..])
  }

  /** Fields read in front of what a reading of the rest gives. */
  function Prepend(ps: seq<(string, string)>, r: Option<(seq<(string, string)>, string)>): Option<(seq<(string, string)>, string)> {
    if r.None? then None else Some((ps + r.value.0, r.value.1))
  }

  // ---- one specifier ----

  lemma UpToOn(c: char, a: string, b: string)
    requires forall i :: 0 <= i < |a| ==> a[i] != c
    ensures UpTo(c, a + [c] + b) == |a|
  {
    var s := a + [c] + b;
    assert s[|a|] == c;
    assert forall i :: 0 <= i < |a| ==> s[i] == a[i];
  }

  /** A specifier's text, followed by more text, nested to the right. */
  lemma SpecTextThen(sp: Spec, rest: string)
    ensures SpecText(sp) + rest == "<" + (sp.name + (":" + (sp.length + (">" + (sp.value + rest)))))
  {
    var e := ">" + sp.value;
    var d := sp.length + e;
    var c := ":" + d;
    var b := sp.name + c;
    Associative("<", b, rest);
    Associative(sp.name, c, rest);
    Associative(":", d, rest);
    Associative(sp.length, e, rest);
    Associative(">", sp.value, rest);
  }

  /** A specifier is read as its name, then exactly as many characters as
    * its length tag says (or nothing, when the text is too short). */
  lemma ReadSpecTag(sp: Spec, rest: string)
    requires TagOk(sp)
    ensures var r := ReadSpec(SpecText(sp) + rest);
            r.Some? ==> r.value.0 == sp.name && |r.value.1| == DigitsValue(sp.length)
    ensures var n := DigitsValue(sp.length);
            n <= |sp.value| ==> ReadSpec(SpecText(sp) + rest) == Some((sp.name, sp.value[..n], sp.value[n..] + rest))
  {
    var v := sp.value + rest;
    var u := sp.length + (">" + v);
    var t := sp.name + (":" + u);
    SpecTextThen(sp, rest);
    assert ("<" + t)[1..] == t;
    ReadTagOn(sp.name, u);
    ReadLengthOn(sp.name, sp.length, v);
    if DigitsValue(sp.length) <= |sp.value| {
      ReadValueOn(sp.name, DigitsValue(sp.length), sp.value, rest);
    }
  }

  lemma ReadTagOn(name: string, u: string)
    requires NameOk(name)
    ensures ReadTag(name + (":" + u)) == ReadLength(name, u)
  {
    var t := name + (":" + u);
    assert forall i :: 0 <= i < |name| ==> name[i] != ':';
    UpToOn(':', name, u);
    assert name + [':'] + u == t;
    assert t[..|name|] == name && t[|name| + 1..] == u;
  }

  lemma ReadLengthOn(name: string, digits: string, v: string)
    requires digits != [] && AllIn(digits, Digit)
    ensures ReadLength(name, digits + (">" + v)) == ReadValue(name, DigitsValue(digits), v)
  {
    var u := digits + (">" + v);
    SpanUnique(Digit, u, |digits|);
    assert u[|digits|] == '>';
    assert u[..|digits|] == digits && u[|digits| + 1..] == v;
    ReadLengthSteps(name, u, |digits|);
  }

  lemma ReadLengthSteps(name: string, u: string, d: nat)
    requires d == Span(Digit, u) && 0 < d < |u| && u[d] == '>'
    ensures ReadLength(name, u) == ReadValue(name, DigitsValue(u[..d]), u[d + 1..])
  {
  }

  lemma ReadValueOn(name: string, n: nat, value: string, rest: string)
    requires n <= |value|
    ensures ReadValue(name, n, value + rest) == Some((name, value[..n], value[n..] + rest))
  {
    assert (value + rest)[..n] == value[..n];
    assert (value + rest)[n..] == value[n..] + rest;
  }

  /** An honest specifier reads back as its name and value. */
  lemma ReadSpecOn(sp: Spec, rest: string)
    requires Honest(sp)
    ensures ReadSpec(SpecText(sp) + rest) == Some((sp.name, sp.value, rest))
  {
    ReadSpecTag(sp, rest);
    assert sp.value[..|sp.value|] == sp.value && sp.value[|sp.value|..] == [];
  }

  /** A specifier never looks like the end of a record. */
  lemma NotEor(sp: Spec, rest: string)
    requires NameOk(sp.name)
    ensures !StartsEor(SpecText(sp) + rest)
  {
    var s := SpecText(sp) + rest;
    SpecTextThen(sp, rest);
    assert s[1] == sp.name[0];
    if |sp.name| == 1 {
      assert s[2] == ':';
    } else if |sp.name| == 2 {
      assert s[3] == ':';
    } else if |sp.name| == 3 {
      assert s[4] == ':';
    } else {
      assert s[4] == sp.name[3];
    }
  }

  // ---- a record ----

  lemma ReadFieldsStep(s: string, name: string, value: string, rest: string)
    requires !StartsEor(s) && ReadSpec(s) == Some((name, value, rest))
    ensures ReadFields(s) == Prepend([(name, value)], ReadFields(rest))
  {
  }

  /** An honest specifier in front of a text reads back as its name and
    * value, followed by whatever the text reads as. */
  lemma ReadFieldsCons(sp: Spec, rest: string)
    requires Honest(sp)
    ensures ReadFields(SpecText(sp) + rest) == Prepend([(sp.name, sp.value)], ReadFields(rest))
  {
    NotEor(sp, rest);
    ReadSpecOn(sp, rest);
    ReadFieldsStep(SpecText(sp) + rest, sp.name, sp.value, rest);
  }

  lemma PrependPrepend(a: seq<(string, string)>, b: seq<(string, string)>, r: Option<(seq<(string, string)>, string)>)
    ensures Prepend(a, Prepend(b, r)) == Prepend(a + b, r)
  {
    if r.Some? {
      assert a + (b + r.value.0) == (a + b) + r.value.0;
    }
  }

  /** Honest specifiers in front of a text read back as their names and
    * values, followed by whatever the text reads as. */
  lemma {:induction false} ReadFieldsAfter(ss: seq<Spec>, s: string)
    requires AllHonest(ss)
    ensures ReadFields(SpecsText(ss) + s) == Prepend(Pairs(ss), ReadFields(s))
    decreases |ss|
  {
    if ss == [] {
      assert SpecsText(ss) + s == s;
      if ReadFields(s).Some? { assert [] + ReadFields(s).value.0 == ReadFields(s).value.0; }
    } else {
      Associative(SpecText(ss[0]), SpecsText(ss[1..]), s);
      ReadFieldsCons(ss[0], SpecsText(ss[1..]) + s);
      ReadFieldsAfter(ss[1..], s);
      PrependPrepend([(ss[0].name, ss[0].value)], Pairs(ss[1..]), ReadFields(s));
    }
  }

  /** A record of honest specifiers reads back as their names and values,
    * and reading stops right after its `<EOR>`. */
  lemma RecordRoundTrip(ss: seq<Spec>, rest: string)
    requires AllHonest(ss)
    ensures ReadFields((SpecsText(ss) + "<EOR>\n") + rest) == Some((Pairs(ss), "\n" + rest))
  {
    Associative(SpecsText(ss), "<EOR>\n", rest);
    ReadFieldsAfter(ss, "<EOR>\n" + rest);
    EorThen(rest);
    assert Pairs(ss) + [] == Pairs(ss);
  }

  /** `<EOR>` ends the record; the line feed after it is left to read. */
  lemma EorThen(rest: string)
    ensures ReadFields("<EOR>\n" + rest) == Some(([], "\n" + rest))
  {
    var s := "<EOR>\n" + rest;
    assert s[0] == '<' && s[1] == 'E' && s[2] == 'O' && s[3] == 'R' && s[4] == '>';
    assert s[5..] == "\n" + rest;
  }

  lemma {:induction false} SpecsTextAppend(a: seq<Spec>, b: seq<Spec>)
    ensures SpecsText(a + b) == SpecsText(a) + SpecsText(b)
    decreases |a|
  {
    if a == [] {
      assert a + b == b;
    } else {
      assert (a + b)[1..] == a[1..] + b;
      SpecsTextAppend(a[1..], b);
      Associative(SpecText(a[0]), SpecsText(a[1..]), SpecsText(b));
    }
  }

  lemma SpecsTextAt(head: seq<Spec>, sp: Spec, tail: seq<Spec>)
    ensures SpecsText(head + ([sp] + tail)) == SpecsText(head) + (SpecText(sp) + SpecsText(tail))
  {
    SpecsTextAppend(head, [sp] + tail);
    SpecsTextOfCons(sp, tail);
  }

  lemma SpecsTextOfCons(sp: Spec, ss: seq<Spec>)
    ensures SpecsText([sp] + ss) == SpecText(sp) + SpecsText(ss)
  {
    assert ([sp] + ss)[1..] == ss;
  }

  lemma AssociativeSplit(x: string, a: string, b: string, c: string, d: string)
    requires x == a + (b + c)
    ensures x + d == a + (b + (c + d))
  {
    Associative(a, b + c, d);
    Associative(b, c, d);
  }

  /** A specifier whose length tag may not be the length of its value,
    * behind honest ones: either nothing reads, or the field read in its
    * place has the name of the specifier and the length its tag says. */
  lemma DishonestMisreads(head: seq<Spec>, bad: Spec, more: string)
    requires AllHonest(head) && TagOk(bad)
    ensures var r := ReadFields(SpecsText(head) + (SpecText(bad) + more));
            r.Some? ==> |r.value.0| > |head| && r.value.0[|head|].0 == bad.name
                        && |r.value.0[|head|].1| == DigitsValue(bad.length)
  {
    var t := SpecText(bad) + more;
    ReadFieldsAfter(head, t);
    NotEor(bad, more);
    ReadSpecTag(bad, more);
    if ReadSpec(t).Some? {
      var sp := ReadSpec(t).value;
      ReadFieldsStep(t, sp.0, sp.1, sp.2);
    }
  }

  // ---- the QSO template ----

  /** The list built from the i-th specifier on holds the template's
    * specifiers in order. */
  lemma {:induction false} TemplateFromAt(q: QsoRecord, rstRcvdLength: nat, i: nat)
    requires i <= 10
    ensures var ss := TemplateFrom(q, rstRcvdLength, i);
            |ss| == 10 - i && forall j :: 0 <= j < 10 - i ==> ss[j] == TemplateSpec(q, rstRcvdLength, i + j)
    decreases 10 - i
  {
    if i < 10 {
      TemplateFromAt(q, rstRcvdLength, i + 1);
      var ss := TemplateFrom(q, rstRcvdLength, i);
      forall j | 0 <= j < 10 - i
        ensures ss[j] == TemplateSpec(q, rstRcvdLength, i + j)
      {
        if j > 0 {
          assert ss[j] == TemplateFrom(q, rstRcvdLength, i + 1)[j - 1];
        }
      }
    }
  }

  /** Each specifier of the template has a well-formed tag; all but
    * RST_RCVD have the length of their value as their tag, and RST_RCVD
    * has the number it is given. */
  lemma TemplateSpecTag(q: QsoRecord, rstRcvdLength: nat, i: nat)
    requires i < 10
    ensures var sp := TemplateSpec(q, rstRcvdLength, i);
            && TagOk(sp)
            && (i == 7 ==> DigitsValue(sp.length) == rstRcvdLength)
            && (i != 7 ==> Honest(sp))
  {
    if i == 0 { assert NameOk("CALL"); }
    else if i == 1 { assert NameOk("BAND"); }
    else if i == 2 { assert NameOk("FREQ"); }
    else if i == 3 { assert NameOk("MODE"); }
    else if i == 4 { assert NameOk("QSO_DATE"); }
    else if i == 5 { assert NameOk("TIME_ON"); }
    else if i == 6 { assert NameOk("RST_SENT"); }
    else if i == 7 { assert NameOk("RST_RCVD"); }
    else if i == 8 { assert NameOk("MY_GRIDSQUARE"); }
    else { assert NameOk("GRIDSQUARE"); }
  }

  /** Each specifier of the template carries the field of the same place. */
  lemma TemplateSpecField(q: QsoRecord, rstRcvdLength: nat, i: nat)
    requires i < 10
    ensures var sp := TemplateSpec(q, rstRcvdLength, i);
            (sp.name, sp.value) == Fields(q)[i]
  {
  }

  /** The template has ten specifiers, and the k-th is the k-th spec. */
  lemma TemplateAt(q: QsoRecord, rstRcvdLength: nat, k: nat)
    requires k < 10
    ensures |Specs(q, rstRcvdLength)| == 10 && Specs(q, rstRcvdLength)[k] == TemplateSpec(q, rstRcvdLength, k)
  {
    TemplateFromAt(q, rstRcvdLength, 0);
  }

  /** The specifiers before RST_RCVD are honest, and so are those after. */
  lemma TemplateHonestBut(q: QsoRecord, rstRcvdLength: nat)
    ensures var ss := Specs(q, rstRcvdLength);
            |ss| == 10 && AllHonest(ss[..7]) && AllHonest(ss[8..])
  {
    var ss := Specs(q, rstRcvdLength);
    TemplateFromAt(q, rstRcvdLength, 0);
    forall i | 0 <= i < 7
      ensures Honest(ss[..7][i])
    {
      TemplateSpecTag(q, rstRcvdLength, i);
      assert ss[..7][i] == ss[i];
    }
    forall i | 0 <= i < 2
      ensures Honest(ss[8..][i])
    {
      TemplateSpecTag(q, rstRcvdLength, 8 + i);
      assert ss[8..][i] == ss[8 + i];
    }
  }

  /** The template carries the record's fields, in order. */
  lemma TemplatePairs(q: QsoRecord, rstRcvdLength: nat)
    ensures Pairs(Specs(q, rstRcvdLength)) == Fields(q)
  {
    var ss := Specs(q, rstRcvdLength);
    var fs := Fields(q);
    TemplateFromAt(q, rstRcvdLength, 0);
    forall i | 0 <= i < 10
      ensures Pairs(ss)[i] == fs[i]
    {
      TemplateSpecField(q, rstRcvdLength, i);
    }
    assert |fs| == 10;
  }

  lemma HonestJoin(ss: seq<Spec>, k: nat)
    requires k < |ss| && AllHonest(ss[..k]) && Honest(ss[k]) && AllHonest(ss[k + 1..])
    ensures AllHonest(ss)
  {
    forall i | 0 <= i < |ss|
      ensures Honest(ss[i])
    {
      if i < k {
        assert ss[i] == ss[..k][i];
      } else if i > k {
        assert ss[i] == ss[k + 1..][i - k - 1];
      }
    }
  }

  /** Every specifier of the corrected template is honest. */
  lemma TemplateHonest(q: QsoRecord)
    ensures AllHonest(Specs(q, |q.rstRcvd|))
  {
    var ss := Specs(q, |q.rstRcvd|);
    TemplateHonestBut(q, |q.rstRcvd|);
    TemplateAt(q, |q.rstRcvd|, 7);
    RcvdHonest(q);
    HonestJoin(ss, 7);
  }

  /** With the corrected length, the RST_RCVD specifier is honest too. */
  lemma RcvdHonest(q: QsoRecord)
    ensures Honest(TemplateSpec(q, |q.rstRcvd|, 7))
  {
    TemplateSpecTag(q, |q.rstRcvd|, 7);
    TemplateSpecField(q, |q.rstRcvd|, 7);
  }

  /** A record as written by the corrected template reads back as its
    * fields, and reading stops right after its `<EOR>`. */
  lemma FormatRecordRoundTrip(q: QsoRecord, rest: string)
    ensures ReadFields(FormatRecord(q) + rest) == Some((Fields(q), "\n" + rest))
  {
    TemplateHonest(q);
    TemplatePairs(q, |q.rstRcvd|);
    RecordRoundTrip(Specs(q, |q.rstRcvd|), rest);
  }

  /** With the template as written, a received report whose length differs
    * from that of the sent report cannot be read back: either the record
    * does not read at all, or its RST_RCVD value is cut short or overruns
    * into the next specifier. */
  lemma AsWrittenMisreads(q: QsoRecord, rest: string)
    requires |q.rstRcvd| != |q.rstSent|
    ensures var r := ReadFields(FormatRecordAsWritten(q) + rest);
            r.None? || r.value.0 != Fields(q)
  {
    var ss := Specs(q, |q.rstSent|);
    TemplateHonestBut(q, |q.rstSent|);
    TemplateAt(q, |q.rstSent|, 7);
    TemplateSpecTag(q, |q.rstSent|, 7);
    TemplateSpecField(q, |q.rstSent|, 7);
    AsWrittenAround(q, rest);
    DishonestMisreads(ss[..7], ss[7], SpecsText(ss[8..]) + ("<EOR>\n" + rest));
  }

  /** The as-written record, split around its RST_RCVD specifier. */
  lemma AsWrittenAround(q: QsoRecord, rest: string)
    ensures var ss := Specs(q, |q.rstSent|);
            |ss| == 10
            && FormatRecordAsWritten(q) + rest
               == SpecsText(ss[..7]) + (SpecText(ss[7]) + (SpecsText(ss[8..]) + ("<EOR>\n" + rest)))
  {
    var ss := Specs(q, |q.rstSent|);
    TemplateAt(q, |q.rstSent|, 7);
    assert ss == ss[..7] + ([ss[7]] + ss[8..]);
    SpecsTextAt(ss[..7], ss[7], ss[8..]);
    Associative(SpecsText(ss), "<EOR>\n", rest);
    AssociativeSplit(SpecsText(ss), SpecsText(ss[..7]), SpecText(ss[7]), SpecsText(ss[8..]), "<EOR>\n" + rest);
  }

  /** When both reports have the same length the two templates agree. */
  lemma AsWrittenAgrees(q: QsoRecord)
    requires |q.rstRcvd| == |q.rstSent|
    ensures FormatRecordAsWritten(q) == FormatRecord(q)
  {
  }

  // ---- the file ----

  /** The fields of each record, in order. */
  function FieldsOf(qs: seq<QsoRecord>): (fs: seq<seq<(string, string)>>)
    ensures |fs| == |qs| && forall i :: 0 <= i < |qs| ==> fs[i] == Fields(qs[i])
    decreases |qs|
  {
    if qs == [] then [] else [Fields(qs[0])] + FieldsOf(qs[1..])
  }

  /** The corrected template's records, written one after another, read
    * back as every field of every record, in order. */
  lemma {:induction false} RecordsRoundTrip(qs: seq<QsoRecord>)
    ensures ReadRecords(RecordsText(qs, true)) == Some(FieldsOf(qs))
    decreases |qs|
  {
    if qs == [] {
      assert RecordsText(qs, true) == [];
    } else {
      var rest := RecordsText(qs[1..], true);
      RecordsTextCons(qs, true);
      FormatRecordRoundTrip(qs[0], rest);
      RecordsRoundTrip(qs[1..]);
      ReadRecordsStep(RecordsText(qs, true), Fields(qs[0]), rest);
      assert FieldsOf(qs) == [Fields(qs[0])] + FieldsOf(qs[1..]);
    }
  }

  lemma ReadRecordsStep(s: string, fields: seq<(string, string)>, rest: string)
    requires ReadFields(s) == Some((fields, "\n" + rest))
    ensures ReadRecords(s) == Cons(fields, ReadRecords(rest))
  {
    assert s != [];
    assert ("\n" + rest)[1..] == rest;
  }

  /** A first record that does not read back as `fields` keeps the text
    * from reading back as `fields` followed by anything. */
  lemma ReadRecordsMisses(s: string, fields: seq<(string, string)>, fs: seq<seq<(string, string)>>)
    requires s != []
    requires var r := ReadFields(s); r.None? || r.value.0 != fields
    ensures ReadRecords(s) != Some([fields] + fs)
  {
    var r := ReadRecords(s);
    if r.Some? && r.value != [] && ReadFields(s).Some? {
      assert r.value[0] == ReadFields(s).value.0;
      assert ([fields] + fs)[0] == fields;
    }
  }

  /** A record as written ends with its `<EOR>` line. */
  lemma AsWrittenNotEmpty(q: QsoRecord, rest: string)
    ensures FormatRecordAsWritten(q) + rest != []
  {
    var t := SpecsText(Specs(q, |q.rstSent|));
    assert |t + "<EOR>\n"| == |t| + 6;
  }

  /** Every record's received report has the length of its sent report. */
  predicate ReportsAgree(qs: seq<QsoRecord>) {
    forall i :: 0 <= i < |qs| ==> |qs[i].rstRcvd| == |qs[i].rstSent|
  }

  /** The records as the script writes them read back as their fields
    * exactly when no received report differs in length from its sent
    * report. */
  lemma {:induction false} AsWrittenRecordsRead(qs: seq<QsoRecord>)
    ensures ReadRecords(RecordsText(qs, false)) == Some(FieldsOf(qs)) <==> ReportsAgree(qs)
    decreases |qs|
  {
    if qs == [] {
      assert RecordsText(qs, false) == [];
    } else {
      RecordsTextCons(qs, false);
      assert FieldsOf(qs) == [Fields(qs[0])] + FieldsOf(qs[1..]);
      AsWrittenRecordsRead(qs[1..]);
      FirstRecordRead(qs[0], RecordsText(qs[1..], false), FieldsOf(qs[1..]));
      ReportsAgreeCons(qs);
    }
  }

  /** The first record as written and the text after it read back as its
    * fields and `fs` exactly when its two reports have the same length and
    * the text after it reads back as `fs`. */
  lemma FirstRecordRead(q: QsoRecord, rest: string, fs: seq<seq<(string, string)>>)
    ensures ReadRecords(Record(q, false) + rest) == Some([Fields(q)] + fs)
            <==> |q.rstRcvd| == |q.rstSent| && ReadRecords(rest) == Some(fs)
  {
    var s := Record(q, false) + rest;
    if |q.rstRcvd| == |q.rstSent| {
      AsWrittenAgrees(q);
      FormatRecordRoundTrip(q, rest);
      ReadRecordsStep(s, Fields(q), rest);
      if ReadRecords(s) == Some([Fields(q)] + fs) {
        assert ReadRecords(rest).value == ([Fields(q)] + ReadRecords(rest).value)[1..];
      }
    } else {
      AsWrittenMisreads(q, rest);
      AsWrittenNotEmpty(q, rest);
      ReadRecordsMisses(s, Fields(q), fs);
    }
  }

  lemma ReportsAgreeCons(qs: seq<QsoRecord>)
    requires qs != []
    ensures ReportsAgree(qs) <==> |qs[0].rstRcvd| == |qs[0].rstSent| && ReportsAgree(qs[1..])
  {
    if |qs[0].rstRcvd| == |qs[0].rstSent| && ReportsAgree(qs[1..]) {
      forall i | 0 < i < |qs| ensures |qs[i].rstRcvd| == |qs[i].rstSent| {
        assert qs[i] == qs[1..][i - 1];
      }
    }
    if ReportsAgree(qs) {
      forall i | 0 <= i < |qs| - 1 ensures |qs[1..][i].rstRcvd| == |qs[1..][i].rstSent| {
        assert qs[1..][i] == qs[i + 1];
      }
    }
  }

  /** Reading back the file the corrected template writes gives every field
    * of every record, in order. */
  lemma AdifRoundTrip(qs: seq<QsoRecord>)
    ensures ReadAdif(CorrectedAdifFile(qs)) == Some(FieldsOf(qs))
  {
    assert CorrectedAdifFile(qs)[|ADIF_HEADER|..] == RecordsText(qs, true);
    RecordsRoundTrip(qs);
  }

  /** The file `write_adif` writes reads back as every field of every
    * record exactly when every received report is as long as its sent
    * report; the file is then the corrected one. */
  lemma AdifReadsBack(qs: seq<QsoRecord>)
    ensures ReadAdif(AdifFile(qs)) == Some(FieldsOf(qs)) <==> ReportsAgree(qs)
    ensures ReportsAgree(qs) ==> AdifFile(qs) == CorrectedAdifFile(qs)
  {
    assert AdifFile(qs)[|ADIF_HEADER|..] == RecordsText(qs, false);
    AsWrittenRecordsRead(qs);
    if ReportsAgree(qs) {
      AsWrittenRecordsAgree(qs);
    }
  }

  /** With every report pair of one length, both templates write one text. */
  lemma {:induction false} AsWrittenRecordsAgree(qs: seq<QsoRecord>)
    requires ReportsAgree(qs)
    ensures RecordsText(qs, false) == RecordsText(qs, true)
    decreases |qs|
  {
    if qs != [] {
      var init := qs[..|qs| - 1];
      assert ReportsAgree(init) by {
        forall i | 0 <= i < |init| ensures |init[i].rstRcvd| == |init[i].rstSent| {
          assert init[i] == qs[i];
        }
      }
      AsWrittenRecordsAgree(init);
      AsWrittenAgrees(qs[|qs| - 1]);
    }
  }

  /** The script writes what its parse logged: every record's sent report is
    * "599", so the file reads back as the records' fields exactly when every
    * received report has three characters. */
  lemma ScriptFileReadsBack(myCall: string, lines: seq<string>)
    requires ParseLogAsWritten(myCall, lines).Done?
    ensures var qs := ParseLogAsWritten(myCall, lines).value.records;
            ReadAdif(AdifFile(qs)) == Some(FieldsOf(qs)) <==> forall q :: q in qs ==> |q.rstRcvd| == 3
  {
    var qs := ParseLogAsWritten(myCall, lines).value.records;
    AsWrittenSent(myCall, lines);
    AdifReadsBack(qs);
    if forall q :: q in qs ==> |q.rstRcvd| == 3 {
      forall i | 0 <= i < |qs| ensures |qs[i].rstRcvd| == |qs[i].rstSent| {
        assert qs[i] in qs;
      }
    }
    if ReportsAgree(qs) {
      forall q | q in qs ensures |q.rstRcvd| == 3 {
        var i :| 0 <= i < |qs| && qs[i] == q;
      }
    }
  }
}
