/**
 * The call history of the router's voice port (rvcm/calls.py): the page's
 * `var call_logs = [...]` line holds a JSON list of record texts such as
 * `line 0, Answered, IN, Calling:0000;cpc-rus=1;phone-cont(55.66.77.88),
 * Called:+100000000(11.22.33.44), Duration:0h:15m:34s, Mon Nov 28 19:43:31 2016`,
 * and `History.parse` turns each into a `Call`.
 */
module Calls {
  import opened Wrappers
  import opened PyStr

  /** A party of a call: its phone number and IP address, as the abonent pattern captures them. */
  datatype Abonent = Abonent(phone: string, ip: string)

  /** One call record; `stamp` keeps the date text the date parser accepted. */
  datatype Call = Call(
    line: int,
    direction: string,
    calling: Abonent,
    called: Abonent,
    duration: int,
    stamp: string,
    status: string)

  /**
   * The library steps `History.parse` relies on, left abstract: `json.loads` of
   * the payload (`None` when it raises), the abonent pattern's `findall`, and
   * whether `strptime` with format `%a %b %d %H:%M:%S %Y` accepts a text.
   */
  datatype Library = Library(
    loads: string -> Option<seq<string>>,
    findall: string -> seq<Abonent>,
    isStamp: string -> bool)

  const Keyword := "var call_logs ="

  // ---------------------------------------------------------------- the payload

  /** The text of the first line holding the keyword, after the keyword and without its last character; `[]` when no line has it. */
  function Payload(lines: seq<string>): string {
    if lines == [] then "[]"
    else
      var index := Find(lines[0], Keyword);
      if index != -1 then Slice(lines[0], index + |Keyword|, -1)
      else Payload(lines[1..])
  }

  /** Only the first line holding the keyword counts. */
  lemma {:induction false} PayloadFirstMatch(lines: seq<string>, k: nat)
    requires k < |lines| && Find(lines[k], Keyword) != -1
    requires forall j :: 0 <= j < k ==> Find(lines[j], Keyword) == -1
    ensures Payload(lines) == Slice(lines[k], Find(lines[k], Keyword) + |Keyword|, -1)
  {
    if k > 0 {
      PayloadFirstMatch(lines[1..], k - 1);
    }
  }

  /** With no line holding the keyword the payload is the empty JSON list. */
  lemma {:induction false} PayloadNoKeyword(lines: seq<string>)
    requires forall j :: 0 <= j < |lines| ==> Find(lines[j], Keyword) == -1
    ensures Payload(lines) == "[]"
  {
    if lines != [] {
      PayloadNoKeyword(lines[1..]);
    }
  }

  /** A line `var call_logs =` + `body` + one closing character yields `body`. */
  lemma KeywordLinePayload(body: string, close: char)
    ensures Payload([Keyword + body + [close]]) == body
  {
    var ln := Keyword + body + [close];
    assert OccursAt(ln, Keyword, 0);
    assert Find(ln, Keyword) == 0;
    SliceOfFraming(Keyword, body, [close]);
  }

  // ---------------------------------------------------------------- one record

  /** `map(str.strip, parts)` */
  function StripAll(parts: seq<string>): (r: seq<string>)
    ensures |r| == |parts|
  {
    seq(|parts|, i requires 0 <= i < |parts| => Strip(parts[i]))
  }

  /** `int(field.split()[1])`: the second whitespace-separated word as a number. */
  function LineNumber(field: string): Result<int, PyError> {
    var words := SplitWs(field);
    if |words| < 2 then Err(IndexError) else IntOf(words[1])
  }

  /** `field.split(':')[1]`: the text between the first and second colon. */
  function AfterColon(field: string): (r: Result<string, PyError>)
    ensures r.Ok? ==> ':' !in r.value
  {
    var parts := SplitOn(field, ':');
    if |parts| < 2 then Err(IndexError) else Ok(parts[1])
  }

  /** `findall(text)[0]`: the first match of the abonent pattern. */
  function FirstAbonent(lib: Library, text: string): Result<Abonent, PyError> {
    var matches := lib.findall(text);
    if matches == [] then Err(IndexError) else Ok(matches[0])
  }

  /** `int(x[:-1])`: an amount with its one-letter unit dropped, or `None` where `int` raises. */
  function UnitAmount(x: string): Option<int> {
    ParseInt(Slice(x, 0, -1))
  }

  /** Hours, minutes and seconds in seconds; an amount that did not convert raises ValueError. */
  function HmsSeconds(h: Option<int>, m: Option<int>, s: Option<int>): Result<int, PyError> {
    if h.None? || m.None? || s.None? then Err(ValueError)
    else Ok(h.value * 3600 + m.value * 60 + s.value)
  }

  /** `h, m, s = span.split(':')`, then the three amounts in seconds. */
  function SpanSeconds(span: string): Result<int, PyError> {
    var units := SplitOn(span, ':');
    if |units| != 3 then Err(ValueError)
    else HmsSeconds(UnitAmount(units[0]), UnitAmount(units[1]), UnitAmount(units[2]))
  }

  /** A `Label:Hh:Mm:Ss` duration in seconds: `_, span = duration.split(':', 1)`, then the span. */
  function Seconds(duration: string): Result<int, PyError> {
    var halves := SplitOnce(duration, ':');
    if |halves| != 2 then Err(ValueError) else SpanSeconds(halves[1])
  }

  /**
   * The call a record describes, from its converted parts, raising the first
   * exception in the order the source converts them: line number, calling
   * party, called party, duration, date.
   */
  function AssembleCall(lib: Library, lineNum: Result<int, PyError>, status: string, direction: string,
                        callingText: Result<string, PyError>, calledText: Result<string, PyError>,
                        seconds: Result<int, PyError>, stamp: string): Result<Call, PyError> {
    var n :- lineNum;
    var callingArg :- callingText;
    var calling :- FirstAbonent(lib, callingArg);
    var calledArg :- calledText;
    var called :- FirstAbonent(lib, calledArg);
    var duration :- seconds;
    if !lib.isStamp(stamp) then Err(ValueError)
    else Ok(Call(n, Upper(direction), calling, called, duration, stamp, status))
  }

  /** `line, status, direction, source, target, duration, stamp = fields`: exactly seven, or ValueError. */
  function DecodeCallFields(lib: Library, fields: seq<string>): Result<Call, PyError> {
    if |fields| != 7 then Err(ValueError)
    else AssembleCall(lib, LineNumber(fields[0]), fields[1], fields[2], AfterColon(fields[3]), AfterColon(fields[4]),
                      Seconds(fields[5]), fields[6])
  }

  /** One record text as a call. */
  function DecodeRecord(lib: Library, record: string): Result<Call, PyError> {
    DecodeCallFields(lib, StripAll(SplitOn(record, ',')))
  }

  function RecordDecoder(lib: Library): string -> Result<Call, PyError> {
    record => DecodeRecord(lib, record)
  }

  /** What `History.parse` makes of a page: one call per record, or the first exception. */
  function ParseHistory(lib: Library, page: string): Result<seq<Call>, PyError> {
    match lib.loads(Payload(SplitLines(page)))
    case None => Err(ValueError)
    case Some(records) => MapUntilError(records, RecordDecoder(lib))
  }

  // ---------------------------------------------------------------- properties of one record

  /** A record that does not split into exactly seven fields raises ValueError. */
  lemma RecordNeedsSevenFields(lib: Library, record: string)
    requires |SplitOn(record, ',')| != 7
    ensures DecodeRecord(lib, record) == Err(ValueError)
  {
  }

  /**
   * Seven comma-free texts joined by commas decode as the seven fields they
   * strip to: whatever whitespace surrounds a field is dropped before it is
   * converted.
   */
  lemma DecodeJoinedRecord(lib: Library, raw: seq<string>, fields: seq<string>)
    requires |raw| == 7 && |fields| == 7
    requires forall i :: 0 <= i < 7 ==> ',' !in raw[i] && Strip(raw[i]) == fields[i]
    ensures DecodeRecord(lib, Join(raw, ',')) == DecodeCallFields(lib, fields)
  {
    SplitJoin(raw, ',');
    assert StripAll(raw) == fields;
  }

  /**
   * Seven comma-free fields, each padded on either side with whitespace and
   * joined by commas, decode as the fields themselves.
   */
  lemma DecodePaddedRecord(lib: Library, raw: seq<string>, lead: seq<string>, fields: seq<string>, trail: seq<string>)
    requires |raw| == 7 && |lead| == 7 && |fields| == 7 && |trail| == 7
    requires forall i :: 0 <= i < 7 ==> raw[i] == lead[i] + fields[i] + trail[i] && Blank(lead[i]) && Blank(trail[i])
    requires forall i :: 0 <= i < 7 ==> ',' !in fields[i] && Strip(fields[i]) == fields[i]
    ensures DecodeRecord(lib, Join(raw, ',')) == DecodeCallFields(lib, fields)
  {
    forall i | 0 <= i < 7 ensures ',' !in raw[i] && Strip(raw[i]) == fields[i] {
      StripPadded(lead[i], fields[i], trail[i]);
      BlankNoComma(lead[i]);
      BlankNoComma(trail[i]);
    }
    DecodeJoinedRecord(lib, raw, fields);
  }

  lemma BlankNoComma(s: string)
    requires Blank(s)
    ensures ',' !in s
  {
  }

  /** Seven comma-free, stripped fields written as `", ".join(fields)` decode as those fields. */
  lemma DecodeCommaSpaceRecord(lib: Library, fields: seq<string>)
    requires |fields| == 7
    requires forall i :: 0 <= i < 7 ==> ',' !in fields[i] && Strip(fields[i]) == fields[i]
    ensures DecodeRecord(lib, JoinStr(fields, ", ")) == DecodeCallFields(lib, fields)
  {
    var lead := seq(7, i requires 0 <= i < 7 => if i == 0 then "" else " ");
    var trail := seq(7, i requires 0 <= i < 7 => "");
    CommaSpacePads(fields, lead, trail);
    DecodePaddedRecord(lib, PadTail(fields, " "), lead, fields, trail);
    assert JoinStr(fields, ", ") == Join(PadTail(fields, " "), ',') by {
      assert [','] + " " == ", ";
      JoinPadTail(fields, ',', " ");
    }
  }

  /** The text between two commas of `", ".join(fields)` is a field with one space before it, or none for the first. */
  lemma CommaSpacePads(fields: seq<string>, lead: seq<string>, trail: seq<string>)
    requires |fields| == 7
    requires lead == seq(7, i requires 0 <= i < 7 => if i == 0 then "" else " ")
    requires trail == seq(7, i requires 0 <= i < 7 => "")
    ensures var raw := PadTail(fields, " ");
      forall i :: 0 <= i < 7 ==> raw[i] == lead[i] + fields[i] + trail[i] && Blank(lead[i]) && Blank(trail[i])
  {
    var raw := PadTail(fields, " ");
    assert Blank(" ") && Blank("");
    forall i | 0 <= i < 7 ensures raw[i] == lead[i] + fields[i] + trail[i] {
      assert fields[i] + "" == fields[i];
      if i == 0 {
        assert "" + fields[0] == fields[0];
      }
    }
  }

  /** A word, a space and a numeral give the numeral's number, as in `line 0`. */
  lemma LineNumberOf(word: string, n: int)
    requires word != [] && Avoids(word, IsSpace)
    ensures LineNumber(word + " " + IntStr(n)) == Ok(n)
  {
    IntStrNoSpace(n);
    IntOfIntStr(n);
    SplitWsTwoWords(word, IntStr(n));
  }

  /** The record's example line field `line 0` is line 0. */
  lemma ExampleLineNumber()
    ensures LineNumber("line 0") == Ok(0)
  {
    assert "line 0" == "line" + " " + IntStr(0);
    LineNumberOf("line", 0);
  }

  /** `Label:text` gives `text` when neither holds a colon. */
  lemma AfterColonOf(tag: string, text: string)
    requires ':' !in tag && ':' !in text
    ensures AfterColon(tag + ":" + text) == Ok(text)
  {
    SplitAfterFirst(tag, text, ':');
    SplitNoSep(text, ':');
  }

  /** An amount followed by a one-letter unit gives the amount. */
  lemma UnitAmountOf(n: nat, unit: char)
    ensures UnitAmount(NatStr(n) + [unit]) == Some(n)
  {
    SliceOfFraming([], NatStr(n), [unit]);
    assert [] + NatStr(n) + [unit] == NatStr(n) + [unit];
    ParseIntStr(n);
  }

  /** Three converted amounts give `h * 3600 + m * 60 + s` seconds. */
  lemma HmsSecondsOf(hv: Option<int>, mv: Option<int>, sv: Option<int>, h: int, m: int, s: int, sec: int)
    requires hv == Some(h) && mv == Some(m) && sv == Some(s) && sec == h * 3600 + m * 60 + s
    ensures HmsSeconds(hv, mv, sv) == Ok(sec)
  {
  }

  /** Three colon-free units joined by colons split back into those units. */
  lemma SplitUnits(hx: string, mx: string, sx: string)
    requires ':' !in hx && ':' !in mx && ':' !in sx
    ensures SplitOn(hx + ":" + mx + ":" + sx, ':') == [hx, mx, sx]
  {
    var span := hx + ":" + mx + ":" + sx;
    assert span == hx + [':'] + (mx + [':'] + sx);
    SplitAfterFirst(hx, mx + [':'] + sx, ':');
    SplitAfterFirst(mx, sx, ':');
    SplitNoSep(sx, ':');
  }

  /** A span that splits into three units converts each of them. */
  lemma SpanSecondsOfUnits(span: string, hx: string, mx: string, sx: string)
    requires SplitOn(span, ':') == [hx, mx, sx]
    ensures SpanSeconds(span) == HmsSeconds(UnitAmount(hx), UnitAmount(mx), UnitAmount(sx))
  {
  }

  /** The span of a duration is what follows its first colon. */
  lemma SecondsOfSpan(tag: string, span: string)
    requires ':' !in tag
    ensures Seconds(tag + ":" + span) == SpanSeconds(span)
  {
    SplitOnceAt(tag, span, ':');
  }

  /** Three colon-free units that convert give a span of `h * 3600 + m * 60 + s` seconds. */
  lemma SpanSecondsOf(hx: string, mx: string, sx: string, h: int, m: int, s: int, sec: int)
    requires ':' !in hx && ':' !in mx && ':' !in sx
    requires UnitAmount(hx) == Some(h) && UnitAmount(mx) == Some(m) && UnitAmount(sx) == Some(s)
    requires sec == h * 3600 + m * 60 + s
    ensures SpanSeconds(hx + ":" + mx + ":" + sx) == Ok(sec)
  {
    var span := hx + ":" + mx + ":" + sx;
    SplitUnits(hx, mx, sx);
    SpanSecondsOfUnits(span, hx, mx, sx);
    HmsSecondsOf(UnitAmount(hx), UnitAmount(mx), UnitAmount(sx), h, m, s, sec);
  }

  /** `Label:Hh:Mm:Ss` lasts `sec = H * 3600 + M * 60 + S` seconds. */
  lemma SecondsOf(tag: string, hx: string, mx: string, sx: string, h: int, m: int, s: int, sec: int)
    requires ':' !in tag && ':' !in hx && ':' !in mx && ':' !in sx
    requires UnitAmount(hx) == Some(h) && UnitAmount(mx) == Some(m) && UnitAmount(sx) == Some(s)
    requires sec == h * 3600 + m * 60 + s
    ensures Seconds(tag + ":" + (hx + ":" + mx + ":" + sx)) == Ok(sec)
  {
    SpanSecondsOf(hx, mx, sx, h, m, s, sec);
    SecondsOfSpan(tag, hx + ":" + mx + ":" + sx);
  }

  /** Parts that all convert give the call they describe, the direction upper-cased and the status as given. */
  lemma AssembleCallOf(lib: Library, lineNum: Result<int, PyError>, status: string, direction: string,
                       callingText: Result<string, PyError>, calledText: Result<string, PyError>,
                       seconds: Result<int, PyError>, stamp: string)
    requires lineNum.Ok? && callingText.Ok? && calledText.Ok? && seconds.Ok?
    requires lib.findall(callingText.value) != [] && lib.findall(calledText.value) != [] && lib.isStamp(stamp)
    ensures AssembleCall(lib, lineNum, status, direction, callingText, calledText, seconds, stamp)
         == Ok(Call(lineNum.value, Upper(direction), lib.findall(callingText.value)[0], lib.findall(calledText.value)[0],
                    seconds.value, stamp, status))
  {
  }

  /**
   * Seven fields whose line number, parties and duration convert, and whose
   * date is accepted, decode to the call they describe: the direction
   * upper-cased, the status as given, the first abonent match of each party.
   */
  lemma DecodeCallFieldsOf(lib: Library, fields: seq<string>, n: int, callingText: string, calledText: string, seconds: int)
    requires |fields| == 7
    requires LineNumber(fields[0]) == Ok(n) && AfterColon(fields[3]) == Ok(callingText)
    requires AfterColon(fields[4]) == Ok(calledText) && Seconds(fields[5]) == Ok(seconds)
    requires lib.findall(callingText) != [] && lib.findall(calledText) != [] && lib.isStamp(fields[6])
    ensures DecodeCallFields(lib, fields)
         == Ok(Call(n, Upper(fields[2]), lib.findall(callingText)[0], lib.findall(calledText)[0], seconds, fields[6], fields[1]))
  {
    AssembleCallOf(lib, LineNumber(fields[0]), fields[1], fields[2], AfterColon(fields[3]), AfterColon(fields[4]),
                   Seconds(fields[5]), fields[6]);
  }

  /**
   * A record with fewer or more than seven fields, or one whose conversion
   * raises, is no call: a line field without a number, a party field without
   * a colon or without an abonent match, a duration that does not convert,
   * or a date the date parser rejects.
   */
  lemma DecodeCallFieldsFails(lib: Library, fields: seq<string>)
    requires || |fields| != 7
             || LineNumber(fields[0]).Err? || Seconds(fields[5]).Err?
             || AfterColon(fields[3]).Err? || AfterColon(fields[4]).Err?
             || FirstAbonent(lib, AfterColon(fields[3]).value).Err?
             || FirstAbonent(lib, AfterColon(fields[4]).value).Err?
             || !lib.isStamp(fields[6])
    ensures DecodeCallFields(lib, fields).Err?
  {
  }

  /** A field with no whitespace at either end, which `strip` leaves as it is. */
  predicate Unpadded(field: string) {
    field != [] && !IsSpace(field[0]) && !IsSpace(field[|field| - 1])
  }

  /** A line field `word n`: line `n`, comma-free and unpadded. */
  lemma LineField(word: string, n: nat)
    requires word != [] && Avoids(word, IsSpace) && ',' !in word
    ensures var field := word + " " + IntStr(n);
      && LineNumber(field) == Ok(n) && ',' !in field && Unpadded(field)
  {
    var field := word + " " + IntStr(n);
    LineNumberOf(word, n);
    NatStrAvoids(n, c => c == ',');
    IntStrNoSpace(n);
    assert field[0] == word[0];
    assert field[|field| - 1] == IntStr(n)[|IntStr(n)| - 1];
  }

  /** A party field `Tag:text`: `text`, comma-free and unpadded. */
  lemma PartyField(tag: string, text: string)
    requires tag != [] && !IsSpace(tag[0]) && ':' !in tag && ',' !in tag
    requires text != [] && !IsSpace(text[|text| - 1]) && ':' !in text && ',' !in text
    ensures var field := tag + ":" + text;
      && AfterColon(field) == Ok(text) && ',' !in field && Unpadded(field)
  {
    var field := tag + ":" + text;
    AfterColonOf(tag, text);
    assert field[0] == tag[0];
    assert field[|field| - 1] == text[|text| - 1];
  }

  /** A unit `Nu` holds no colon and no comma. */
  lemma UnitTextClean(n: nat, unit: char)
    requires unit !in ":,"
    ensures ':' !in NatStr(n) + [unit] && ',' !in NatStr(n) + [unit]
  {
    var d := NatStr(n);
    assert IsDigits(d);
    assert ':' !in d && ',' !in d by {
      forall k | 0 <= k < |d| ensures d[k] != ':' && d[k] != ',' {
        assert IsDigit(d[k]);
      }
    }
  }

  /** A span `Hh:Mm:Ss` of decimal amounts, each followed by a one-letter unit, lasts `sec = h * 3600 + m * 60 + s` seconds. */
  lemma NatSpanSeconds(h: nat, m: nat, s: nat, hu: char, mu: char, su: char, sec: int)
    requires hu !in ":," && mu !in ":," && su !in ":," && sec == h * 3600 + m * 60 + s
    ensures SpanSeconds((NatStr(h) + [hu]) + ":" + (NatStr(m) + [mu]) + ":" + (NatStr(s) + [su])) == Ok(sec)
  {
    UnitAmountOf(h, hu);
    UnitAmountOf(m, mu);
    UnitAmountOf(s, su);
    UnitTextClean(h, hu);
    UnitTextClean(m, mu);
    UnitTextClean(s, su);
    SpanSecondsOf(NatStr(h) + [hu], NatStr(m) + [mu], NatStr(s) + [su], h, m, s, sec);
  }

  /** A duration field `Tag:Hh:Mm:Ss` is comma-free and unpadded. */
  lemma DurationFieldEdges(tag: string, hx: string, mx: string, sx: string)
    requires tag != [] && !IsSpace(tag[0]) && ',' !in tag
    requires ',' !in hx && ',' !in mx && ',' !in sx && sx != [] && !IsSpace(sx[|sx| - 1])
    ensures var field := tag + ":" + (hx + ":" + mx + ":" + sx);
      && ',' !in field && Unpadded(field)
  {
    var field := tag + ":" + (hx + ":" + mx + ":" + sx);
    assert field[0] == tag[0];
    assert field[|field| - 1] == sx[|sx| - 1];
  }

  /**
   * A record in the router's shape, such as
   * `line 0, Answered, IN, Calling:...(55.66.77.88), Called:...(11.22.33.44), Duration:0h:15m:34s, <date>`,
   * decodes to the call it describes: the line number, the direction
   * upper-cased, the first abonent match of each party, the duration in
   * seconds, the accepted date and the status as given. `fields` are the
   * seven fields as `strip` leaves them; in the text each is padded with the
   * whitespace `lead[i]` before it and `trail[i]` after it (the space after
   * every `, ` separator, say).
   */
  lemma DecodeRecordOf(lib: Library, fields: seq<string>, word: string, n: nat, status: string, direction: string,
                       callingTag: string, callingText: string, calledTag: string, calledText: string,
                       durationTag: string, h: nat, m: nat, s: nat, hu: char, mu: char, su: char, stamp: string, sec: int,
                       raw: seq<string>, lead: seq<string>, trail: seq<string>)
    requires |fields| == 7 && fields[0] == word + " " + IntStr(n) && fields[1] == status && fields[2] == direction
    requires fields[3] == callingTag + ":" + callingText && fields[4] == calledTag + ":" + calledText
    requires fields[5] == durationTag + ":" + ((NatStr(h) + [hu]) + ":" + (NatStr(m) + [mu]) + ":" + (NatStr(s) + [su]))
    requires fields[6] == stamp
    requires word != [] && Avoids(word, IsSpace) && ',' !in word
    requires ',' !in status && Strip(status) == status && ',' !in direction && Strip(direction) == direction
    requires ',' !in stamp && Strip(stamp) == stamp
    requires callingTag != [] && !IsSpace(callingTag[0]) && ':' !in callingTag && ',' !in callingTag
    requires callingText != [] && !IsSpace(callingText[|callingText| - 1]) && ':' !in callingText && ',' !in callingText
    requires calledTag != [] && !IsSpace(calledTag[0]) && ':' !in calledTag && ',' !in calledTag
    requires calledText != [] && !IsSpace(calledText[|calledText| - 1]) && ':' !in calledText && ',' !in calledText
    requires durationTag != [] && !IsSpace(durationTag[0]) && ':' !in durationTag && ',' !in durationTag
    requires hu !in ":," && mu !in ":," && su !in ":," && !IsSpace(su)
    requires lib.findall(callingText) != [] && lib.findall(calledText) != [] && lib.isStamp(stamp)
    requires sec == h * 3600 + m * 60 + s
    requires |raw| == 7 && |lead| == 7 && |trail| == 7
    requires forall i :: 0 <= i < 7 ==> raw[i] == lead[i] + fields[i] + trail[i] && Blank(lead[i]) && Blank(trail[i])
    ensures DecodeRecord(lib, Join(raw, ','))
         == Ok(Call(n, Upper(direction), lib.findall(callingText)[0], lib.findall(calledText)[0], sec, stamp, status))
  {
    RecordFieldsUnpadded(fields, word, n, status, direction, callingTag, callingText, calledTag, calledText, durationTag, h, m, s, hu, mu, su, stamp);
    StrippedRecordFields(fields);
    DecodePaddedRecord(lib, raw, lead, fields, trail);
    RecordFieldsCall(lib, fields, word, n, status, direction, callingTag, callingText, calledTag, calledText, durationTag, h, m, s, hu, mu, su, stamp, sec);
  }

  /** The seven fields of such a record are comma-free, and each is unpadded or already stripped. */
  lemma RecordFieldsUnpadded(fields: seq<string>, word: string, n: nat, status: string, direction: string,
                       callingTag: string, callingText: string, calledTag: string, calledText: string,
                       durationTag: string, h: nat, m: nat, s: nat, hu: char, mu: char, su: char, stamp: string)
    requires |fields| == 7 && fields[0] == word + " " + IntStr(n) && fields[1] == status && fields[2] == direction
    requires fields[3] == callingTag + ":" + callingText && fields[4] == calledTag + ":" + calledText
    requires fields[5] == durationTag + ":" + ((NatStr(h) + [hu]) + ":" + (NatStr(m) + [mu]) + ":" + (NatStr(s) + [su]))
    requires fields[6] == stamp
    requires word != [] && Avoids(word, IsSpace) && ',' !in word
    requires ',' !in status && Strip(status) == status && ',' !in direction && Strip(direction) == direction
    requires ',' !in stamp && Strip(stamp) == stamp
    requires callingTag != [] && !IsSpace(callingTag[0]) && ':' !in callingTag && ',' !in callingTag
    requires callingText != [] && !IsSpace(callingText[|callingText| - 1]) && ':' !in callingText && ',' !in callingText
    requires calledTag != [] && !IsSpace(calledTag[0]) && ':' !in calledTag && ',' !in calledTag
    requires calledText != [] && !IsSpace(calledText[|calledText| - 1]) && ':' !in calledText && ',' !in calledText
    requires durationTag != [] && !IsSpace(durationTag[0]) && ':' !in durationTag && ',' !in durationTag
    requires hu !in ":," && mu !in ":," && su !in ":," && !IsSpace(su)
    ensures ',' !in fields[0] && Unpadded(fields[0]) && ',' !in fields[3] && Unpadded(fields[3])
    ensures ',' !in fields[4] && Unpadded(fields[4]) && ',' !in fields[5] && Unpadded(fields[5])
    ensures ',' !in fields[1] && Strip(fields[1]) == fields[1] && ',' !in fields[2] && Strip(fields[2]) == fields[2]
    ensures ',' !in fields[6] && Strip(fields[6]) == fields[6]
  {
    LineField(word, n);
    PartyField(callingTag, callingText);
    PartyField(calledTag, calledText);
    var hx, mx, sx := NatStr(h) + [hu], NatStr(m) + [mu], NatStr(s) + [su];
    UnitTextClean(h, hu);
    UnitTextClean(m, mu);
    UnitTextClean(s, su);
    assert sx[|sx| - 1] == su;
    DurationFieldEdges(durationTag, hx, mx, sx);
  }

  /** The seven fields of such a record, once split and stripped, give its call, lasting `sec` seconds. */
  lemma RecordFieldsCall(lib: Library, fields: seq<string>, word: string, n: nat, status: string, direction: string,
                       callingTag: string, callingText: string, calledTag: string, calledText: string,
                       durationTag: string, h: nat, m: nat, s: nat, hu: char, mu: char, su: char, stamp: string, sec: int)
    requires |fields| == 7 && fields[0] == word + " " + IntStr(n) && fields[1] == status && fields[2] == direction
    requires fields[3] == callingTag + ":" + callingText && fields[4] == calledTag + ":" + calledText
    requires fields[5] == durationTag + ":" + ((NatStr(h) + [hu]) + ":" + (NatStr(m) + [mu]) + ":" + (NatStr(s) + [su]))
    requires fields[6] == stamp
    requires word != [] && Avoids(word, IsSpace) && ',' !in word
    requires ',' !in status && Strip(status) == status && ',' !in direction && Strip(direction) == direction
    requires ',' !in stamp && Strip(stamp) == stamp
    requires callingTag != [] && !IsSpace(callingTag[0]) && ':' !in callingTag && ',' !in callingTag
    requires callingText != [] && !IsSpace(callingText[|callingText| - 1]) && ':' !in callingText && ',' !in callingText
    requires calledTag != [] && !IsSpace(calledTag[0]) && ':' !in calledTag && ',' !in calledTag
    requires calledText != [] && !IsSpace(calledText[|calledText| - 1]) && ':' !in calledText && ',' !in calledText
    requires durationTag != [] && !IsSpace(durationTag[0]) && ':' !in durationTag && ',' !in durationTag
    requires hu !in ":," && mu !in ":," && su !in ":," && !IsSpace(su)
    requires lib.findall(callingText) != [] && lib.findall(calledText) != [] && lib.isStamp(stamp)
    requires sec == h * 3600 + m * 60 + s
    ensures DecodeCallFields(lib, fields)
         == Ok(Call(n, Upper(direction), lib.findall(callingText)[0], lib.findall(calledText)[0], sec, stamp, status))
  {
    assert LineNumber(fields[0]) == Ok(n) by {
      LineField(word, n);
    }
    assert AfterColon(fields[3]) == Ok(callingText) by {
      PartyField(callingTag, callingText);
    }
    assert AfterColon(fields[4]) == Ok(calledText) by {
      PartyField(calledTag, calledText);
    }
    assert Seconds(fields[5]) == Ok(sec) by {
      var span := (NatStr(h) + [hu]) + ":" + (NatStr(m) + [mu]) + ":" + (NatStr(s) + [su]);
      NatSpanSeconds(h, m, s, hu, mu, su, sec);
      SecondsOfSpan(durationTag, span);
    }
    DecodeCallFieldsOf(lib, fields, n, callingText, calledText, sec);
  }

  /** Seven comma-free fields, some unpadded and the rest already stripped, are all left as they are by `strip`. */
  lemma StrippedRecordFields(fields: seq<string>)
    requires |fields| == 7
    requires ',' !in fields[0] && Unpadded(fields[0]) && ',' !in fields[3] && Unpadded(fields[3])
    requires ',' !in fields[4] && Unpadded(fields[4]) && ',' !in fields[5] && Unpadded(fields[5])
    requires ',' !in fields[1] && Strip(fields[1]) == fields[1] && ',' !in fields[2] && Strip(fields[2]) == fields[2]
    requires ',' !in fields[6] && Strip(fields[6]) == fields[6]
    ensures forall i :: 0 <= i < 7 ==> ',' !in fields[i] && Strip(fields[i]) == fields[i]
  {
    StripNoEdgeSpace(fields[0]);
    StripNoEdgeSpace(fields[3]);
    StripNoEdgeSpace(fields[4]);
    StripNoEdgeSpace(fields[5]);
    StrippedSeven(fields);
  }

  /** Seven fields each comma-free and already stripped, stated field by field, as one property of all seven. */
  lemma StrippedSeven(fields: seq<string>)
    requires |fields| == 7
    requires ',' !in fields[0] && Strip(fields[0]) == fields[0] && ',' !in fields[1] && Strip(fields[1]) == fields[1]
    requires ',' !in fields[2] && Strip(fields[2]) == fields[2] && ',' !in fields[3] && Strip(fields[3]) == fields[3]
    requires ',' !in fields[4] && Strip(fields[4]) == fields[4] && ',' !in fields[5] && Strip(fields[5]) == fields[5]
    requires ',' !in fields[6] && Strip(fields[6]) == fields[6]
    ensures forall i :: 0 <= i < 7 ==> ',' !in fields[i] && Strip(fields[i]) == fields[i]
  {
    forall i | 0 <= i < 7 ensures ',' !in fields[i] && Strip(fields[i]) == fields[i] {
      if i == 0 {} else if i == 1 {} else if i == 2 {} else if i == 3 {} else if i == 4 {} else if i == 5 {}
    }
  }

  // ---------------------------------------------------------------- the whole page

  /** A page without the keyword parses to an empty history, given that the JSON `[]` is an empty list. */
  lemma NoKeywordEmptyHistory(lib: Library, page: string)
    requires forall j :: 0 <= j < |SplitLines(page)| ==> Find(SplitLines(page)[j], Keyword) == -1
    requires lib.loads("[]") == Some([])
    ensures ParseHistory(lib, page) == Ok([])
  {
    PayloadNoKeyword(SplitLines(page));
  }

  /** A parsed history holds one call per record, each the decoding of its record, in record order. */
  lemma OneCallPerRecord(lib: Library, page: string)
    requires lib.loads(Payload(SplitLines(page))).Some? && ParseHistory(lib, page).Ok?
    ensures var records := lib.loads(Payload(SplitLines(page))).value;
      && |ParseHistory(lib, page).value| == |records|
      && forall i :: 0 <= i < |records| ==> DecodeRecord(lib, records[i]) == Ok(ParseHistory(lib, page).value[i])
  {
    var records := lib.loads(Payload(SplitLines(page))).value;
    MapUntilErrorOkElements(records, RecordDecoder(lib));
  }

  // ---------------------------------------------------------------- the history object

  /** The line scan of `History.parse`: stop at the first line holding the keyword. */
  method FindPayload(lines: seq<string>) returns (line: string)
    ensures line == Payload(lines)
  {
    line := "[]";
    var i := 0;
    while i < |lines|
      invariant 0 <= i <= |lines|
      invariant Payload(lines) == Payload(lines[i..])
    {
      var index := Find(lines[i], Keyword);
      if index != -1 {
        line := Slice(lines[i], index + |Keyword|, -1);
        break;
      }
      assert lines[i..][1..] == lines[i + 1..];
      i := i + 1;
    }
  }

  /** The record loop of `History.parse`: decode each record into a new list, stopping at the first exception. */
  method DecodeRecords<A, B, E>(records: seq<A>, decode: A -> Result<B, E>) returns (r: Result<seq<B>, E>)
    ensures r == MapUntilError(records, decode)
  {
    var result: seq<B> := [];
    var k := 0;
    while k < |records|
      invariant 0 <= k <= |records|
      invariant MapUntilError(records[..k], decode) == Ok(result)
    {
      var item := decode(records[k]);
      MapUntilErrorStep(records, decode, k, result);
      if item.Err? {
        return Err(item.error);
      }
      result := result + [item.value];
      k := k + 1;
    }
    assert records[..k] == records;
    return Ok(result);
  }

  /** `History`: the call list fetched from the router. */
  class History {
    var calls: seq<Call>

    /** `History(calls)` */
    constructor (calls: seq<Call>)
      ensures this.calls == calls
    {
      this.calls := calls;
    }

    /**
     * `History.parse`: find the payload line, load the record list, decode the
     * records into a new list and only then replace `calls` with it; an
     * exception leaves `calls` as it was.
     */
    method Parse(lib: Library, page: string) returns (err: Option<PyError>)
      modifies this
      ensures err.None? <==> ParseHistory(lib, page).Ok?
      ensures err.None? ==> ParseHistory(lib, page) == Ok(calls)
      ensures err.Some? ==> ParseHistory(lib, page) == Err(err.value) && calls == old(calls)
    {
      var line := FindPayload(SplitLines(page));
      var loaded := lib.loads(line);
      if loaded.None? {
        return Some(ValueError);
      }
      var decoded := DecodeRecords(loaded.value, RecordDecoder(lib));
      if decoded.Err? {
        return Some(decoded.error);
      }
      calls := decoded.value;
      return None;
    }
  }
}
