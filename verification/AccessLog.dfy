/**
 The access log: nginx prints one line per request with log_format
 ukabu_combined, and the extractor reads the lines back with LOG_PATTERN.
 */
module AccessLog {
  import opened Prelude
  import opened Text

  // ---------- patterns of delimited fields ----------

  /** The four character classes of the pattern: \S, [^\]], [^"] and \d. */
  datatype Class = NonSpace | NotBracket | NotQuote | Digit

  predicate InClass(c: char, k: Class) {
    match k
    case NonSpace => !IsPySpace(c)
    case NotBracket => c != ']'
    case NotQuote => c != '"'
    case Digit => IsDigit(c)
  }

  /** `*` for quoted fields, `+` for the others. */
  predicate MayBeEmpty(k: Class) {
    k == NotQuote
  }

  ghost predicate Fits(s: string, k: Class) {
    (s != "" || MayBeEmpty(k)) && forall i :: 0 <= i < |s| ==> InClass(s[i], k)
  }

  /** A group and the literal text behind it. */
  datatype Item = Item(group: Class, literal: string)

  /** Each group is closed by a character it cannot contain. */
  ghost predicate Delimited(format: seq<Item>) {
    forall i :: 0 <= i < |format| ==> format[i].literal != "" && !InClass(format[i].literal[0], format[i].group)
  }

  function Print(fields: seq<string>, format: seq<Item>): string
    requires |fields| == |format|
  {
    if fields == [] then "" else fields[0] + (format[0].literal + Print(fields[1..], format[1..]))
  }

  ghost predicate AllFit(fields: seq<string>, format: seq<Item>) {
    |fields| == |format| && forall i :: 0 <= i < |fields| ==> Fits(fields[i], format[i].group)
  }

  /** What a regular expression may return: any fitting fields whose print starts the line. */
  ghost predicate Matches(line: string, format: seq<Item>, fields: seq<string>) {
    AllFit(fields, format) && Print(fields, format) <= line
  }

  function Run(s: string, k: Class): (r: string)
    ensures r <= s
    ensures forall i :: 0 <= i < |r| ==> InClass(r[i], k)
    ensures |r| < |s| ==> !InClass(s[|r|], k)
  {
    if s == "" || !InClass(s[0], k) then "" else [s[0]] + Run(s[1..], k)
  }

  /** Left to right, each group taking all it can, without going back. */
  function Parse(line: string, format: seq<Item>): Option<seq<string>> {
    if format == [] then Some([]) else
      var field := Run(line, format[0].group);
      var rest := line[|field|..];
      if (field == "" && !MayBeEmpty(format[0].group)) || !(format[0].literal <= rest) then None else
        match Parse(rest[|format[0].literal|..], format[1..])
        case None => None
        case Some(fields) => Some([field] + fields)
  }

  /** The run stops exactly at the closing literal. */
  lemma {:induction false} RunStops(field: string, k: Class, tail: string)
    requires forall i :: 0 <= i < |field| ==> InClass(field[i], k)
    requires tail != "" && !InClass(tail[0], k)
    ensures Run(field + tail, k) == field
  {
    if field == "" {
      assert field + tail == tail;
    } else {
      assert (field + tail)[1..] == field[1..] + tail;
      RunStops(field[1..], k, tail);
      assert field == [field[0]] + field[1..];
    }
  }

  lemma ParseStep(field: string, item: Item, after: string, more: seq<Item>)
    requires Fits(field, item.group) && item.literal != "" && !InClass(item.literal[0], item.group)
    ensures Parse(field + (item.literal + after), [item] + more)
         == Prepend([field], Parse(after, more))
  {
    var tail := item.literal + after;
    assert tail[0] == item.literal[0];
    RunStops(field, item.group, tail);
    assert (field + tail)[|field|..] == tail && tail[|item.literal|..] == after;
    assert ([item] + more)[1..] == more;
  }

  lemma RestFits(fields: seq<string>, format: seq<Item>)
    requires AllFit(fields, format) && Delimited(format) && fields != []
    ensures Fits(fields[0], format[0].group) && format[0].literal != ""
            && !InClass(format[0].literal[0], format[0].group)
    ensures AllFit(fields[1..], format[1..]) && Delimited(format[1..])
  {
    assert forall i :: 0 <= i < |format| - 1 ==> format[1..][i] == format[i + 1] && fields[1..][i] == fields[i + 1];
  }

  lemma Reassociate(a: string, b: string, c: string, d: string)
    ensures a + (b + c) + d == a + (b + (c + d))
  {
  }

  function Prepend(fields: seq<string>, r: Option<seq<string>>): Option<seq<string>> {
    if r.None? then None else Some(fields + r.value)
  }

  lemma PrependNothing(r: Option<seq<string>>)
    ensures Prepend([], r) == r
  {
    if r.Some? {
      assert [] + r.value == r.value;
    }
  }

  lemma PrependTwice(a: string, b: seq<string>, r: Option<seq<string>>)
    ensures Prepend([a], Prepend(b, r)) == Prepend([a] + b, r)
  {
    if r.Some? {
      assert [a] + (b + r.value) == [a] + b + r.value;
    }
  }

  lemma SplitFormat(format: seq<Item>, more: seq<Item>)
    requires format != []
    ensures format + more == [format[0]] + (format[1..] + more)
  {
  }

  lemma ParseAppendStep(fields: seq<string>, format: seq<Item>, tail: string, more: seq<Item>)
    requires |fields| == |format| && fields != []
    requires Fits(fields[0], format[0].group) && format[0].literal != ""
             && !InClass(format[0].literal[0], format[0].group)
    ensures Parse(Print(fields, format) + tail, format + more)
         == Prepend([fields[0]], Parse(Print(fields[1..], format[1..]) + tail, format[1..] + more))
  {
    var after, rest := Print(fields[1..], format[1..]) + tail, format[1..] + more;
    PrintSplit(fields, format, tail);
    SplitFormat(format, more);
    ParseStep(fields[0], format[0], after, rest);
  }

  /** Groups already printed are read back, and the rest is read on its own. */
  lemma {:induction false} ParseAppend(fields: seq<string>, format: seq<Item>, tail: string, more: seq<Item>)
    requires AllFit(fields, format) && Delimited(format)
    ensures Parse(Print(fields, format) + tail, format + more) == Prepend(fields, Parse(tail, more))
  {
    if fields == [] {
      assert format + more == more && Print(fields, format) + tail == tail;
      PrependNothing(Parse(tail, more));
    } else {
      RestFits(fields, format);
      ParseAppendStep(fields, format, tail, more);
      ParseAppend(fields[1..], format[1..], tail, more);
      PrependTwice(fields[0], fields[1..], Parse(tail, more));
      assert fields == [fields[0]] + fields[1..];
    }
  }

  lemma PrintSplit(fields: seq<string>, format: seq<Item>, tail: string)
    requires |fields| == |format| && fields != []
    ensures Print(fields, format) + tail == fields[0] + (format[0].literal + (Print(fields[1..], format[1..]) + tail))
  {
    Reassociate(fields[0], format[0].literal, Print(fields[1..], format[1..]), tail);
  }

  lemma {:induction false} ParseSound(line: string, format: seq<Item>)
    ensures Parse(line, format).Some? ==> Matches(line, format, Parse(line, format).value)
  {
    if format != [] && Parse(line, format).Some? {
      var field, literal := Run(line, format[0].group), format[0].literal;
      var rest := line[|field|..][|literal|..];
      ParseSound(rest, format[1..]);
      MatchesCons(field, rest, format, Parse(rest, format[1..]).value);
      assert line == field + (literal + rest);
    }
  }

  lemma MatchesCons(field: string, rest: string, format: seq<Item>, fields: seq<string>)
    requires format != [] && Fits(field, format[0].group) && Matches(rest, format[1..], fields)
    ensures Matches(field + (format[0].literal + rest), format, [field] + fields)
  {
    var all, literal := [field] + fields, format[0].literal;
    assert all[1..] == fields;
    forall i | 0 <= i < |all| ensures Fits(all[i], format[i].group) {
      assert i > 0 ==> all[i] == fields[i - 1] && format[i] == format[1..][i - 1];
    }
    var tail := rest[|Print(fields, format[1..])|..];
    assert rest == Print(fields, format[1..]) + tail;
    Reassociate(field, literal, Print(fields, format[1..]), tail);
  }

  /**
   The pattern is unambiguous: the single pass finds exactly what a
   backtracking matcher could find, so a line has at most one match.
   */
  lemma ParseIsTheMatch(line: string, format: seq<Item>, fields: seq<string>)
    requires Delimited(format)
    ensures Parse(line, format) == Some(fields) <==> Matches(line, format, fields)
  {
    ParseSound(line, format);
    if Matches(line, format, fields) {
      var tail := line[|Print(fields, format)|..];
      ParseAppend(fields, format, tail, []);
      assert line == Print(fields, format) + tail && format + [] == format && fields + [] == fields;
    }
  }

  // ---------- the log line ----------

  datatype LogRecord = LogRecord(
    host: string, remoteAddr: string, remoteUser: string, time: string, request: string, status: string,
    bytesSent: string, referer: string, userAgent: string, ukabuStatus: string, ukabuDecision: string,
    strikeType: string, forwardedFor: string, serial: string, requestTime: string, upstreamTime: string,
    sslProtocol: string, sslCipher: string)

  /** The two halves of LOG_PATTERN, split before the upstream time. */
  const FORMAT_HEAD: seq<Item> := [
    Item(NonSpace, " "), Item(NonSpace, " - "), Item(NonSpace, " ["), Item(NotBracket, "] \""),
    Item(NotQuote, "\" "), Item(Digit, " "), Item(Digit, " \""),
    Item(NotQuote, "\" \""), Item(NotQuote, "\" \""), Item(NotQuote, "\" \""), Item(NotQuote, "\" \""),
    Item(NotQuote, "\" \""),
    Item(NotQuote, "\" \""), Item(NotQuote, "\" "), Item(NonSpace, " ")]
  const FORMAT_TAIL: seq<Item> := [Item(NonSpace, " \""), Item(NotQuote, "\" \""), Item(NotQuote, "\"")]
  const LOG_PATTERN := FORMAT_HEAD + FORMAT_TAIL

  function HeadFields(r: LogRecord): seq<string> {
    [r.host, r.remoteAddr, r.remoteUser, r.time, r.request, r.status, r.bytesSent, r.referer, r.userAgent,
     r.ukabuStatus, r.ukabuDecision, r.strikeType, r.forwardedFor, r.serial, r.requestTime]
  }

  function TailFields(r: LogRecord): seq<string> {
    [r.upstreamTime, r.sslProtocol, r.sslCipher]
  }

  function AllFields(r: LogRecord): (f: seq<string>)
    ensures |f| == 18
  {
    HeadFields(r) + TailFields(r)
  }

  /** `match.groupdict()`. */
  function FromFields(f: seq<string>): LogRecord
    requires |f| == 18
  {
    LogRecord(f[0], f[1], f[2], f[3], f[4], f[5], f[6], f[7], f[8], f[9], f[10], f[11], f[12], f[13], f[14], f[15],
              f[16], f[17])
  }

  /** Three variables of the log format, each with the text behind it. */
  function Three(a: string, la: string, b: string, lb: string, c: string, lc: string, rest: string): string {
    a + (la + (b + (lb + (c + (lc + rest)))))
  }

  /** log_format ukabu_combined, up to the request time and from the upstream time on. */
  function PrintHead(r: LogRecord): string {
    Three(r.host, " ", r.remoteAddr, " - ", r.remoteUser, " [",
    Three(r.time, "] \"", r.request, "\" ", r.status, " ",
    Three(r.bytesSent, " \"", r.referer, "\" \"", r.userAgent, "\" \"",
    Three(r.ukabuStatus, "\" \"", r.ukabuDecision, "\" \"", r.strikeType, "\" \"",
    Three(r.forwardedFor, "\" \"", r.serial, "\" ", r.requestTime, " ", "")))))
  }

  function PrintTail(r: LogRecord): string {
    Three(r.upstreamTime, " \"", r.sslProtocol, "\" \"", r.sslCipher, "\"", "")
  }

  function PrintLine(r: LogRecord): string {
    PrintHead(r) + PrintTail(r)
  }

  /** `LOG_PATTERN.match(line)`: anchored at the start, free at the end. */
  function ParseLine(line: string): Option<LogRecord> {
    match Parse(line, LOG_PATTERN)
    case None => None
    case Some(fields) => if |fields| == 18 then Some(FromFields(fields)) else None
  }

  // ---------- which records can be read back ----------

  /** Text between quotes: anything but a quote, also nothing, also with blanks. */
  ghost predicate Quotable(s: string) {
    '"' !in s
  }

  /** Text without quotes: something, with no blank in it. */
  ghost predicate Bare(s: string) {
    s != "" && forall i :: 0 <= i < |s| ==> !PyBlank(s[i] as int)
  }

  ghost predicate Numeral(s: string) {
    s != "" && forall i :: 0 <= i < |s| ==> '0' <= s[i] <= '9'
  }

  ghost predicate Timestamp(s: string) {
    s != "" && ']' !in s
  }

  ghost predicate Accepts(s: string, k: Class) {
    match k
    case NonSpace => Bare(s)
    case NotBracket => Timestamp(s)
    case NotQuote => Quotable(s)
    case Digit => Numeral(s)
  }

  /** That is what the groups of the pattern accept. */
  lemma GroupsAccept(s: string)
    ensures Fits(s, NotQuote) <==> Quotable(s)
    ensures Fits(s, NonSpace) <==> Bare(s)
    ensures Fits(s, Digit) <==> Numeral(s)
    ensures Fits(s, NotBracket) <==> Timestamp(s)
  {
    forall i | 0 <= i < |s| ensures IsPySpace(s[i]) <==> PyBlank(s[i] as int) {
      SpacesByCode(s[i]);
    }
  }

  /** The record's fields are what their places in the line can hold. */
  ghost predicate HeadFits(r: LogRecord) {
    && Bare(r.host) && Bare(r.remoteAddr) && Bare(r.remoteUser)
    && Timestamp(r.time)
    && Quotable(r.request) && Numeral(r.status) && Numeral(r.bytesSent)
    && Quotable(r.referer) && Quotable(r.userAgent) && Quotable(r.ukabuStatus)
    && Quotable(r.ukabuDecision)
    && Quotable(r.strikeType) && Quotable(r.forwardedFor) && Quotable(r.serial)
    && Bare(r.requestTime)
  }

  ghost predicate TailFits(r: LogRecord) {
    Bare(r.upstreamTime) && Quotable(r.sslProtocol) && Quotable(r.sslCipher)
  }

  ghost predicate WellFormed(r: LogRecord) {
    HeadFits(r) && TailFits(r)
  }

  lemma PatternDelimited()
    ensures Delimited(FORMAT_HEAD) && Delimited(FORMAT_TAIL) && Delimited(LOG_PATTERN)
  {
  }

  /** Print unfolded at its i-th group. */
  lemma PrintOne(f: seq<string>, p: seq<Item>, i: nat)
    requires |f| == |p| && i < |f|
    ensures Print(f[i..], p[i..]) == f[i] + (p[i].literal + Print(f[i + 1..], p[i + 1..]))
  {
    assert f[i..][1..] == f[i + 1..] && p[i..][1..] == p[i + 1..];
  }

  lemma PrintThree(f: seq<string>, p: seq<Item>, i: nat)
    requires |f| == |p| && i + 3 <= |f|
    ensures Print(f[i..], p[i..])
         == Three(f[i], p[i].literal, f[i + 1], p[i + 1].literal, f[i + 2], p[i + 2].literal,
                  Print(f[i + 3..], p[i + 3..]))
  {
    PrintOne(f, p, i);
    PrintOne(f, p, i + 1);
    PrintOne(f, p, i + 2);
  }

  lemma WholePrint(f: seq<string>, p: seq<Item>)
    requires |f| == |p|
    ensures Print(f[0..], p[0..]) == Print(f, p) && Print(f[|f|..], p[|p|..]) == ""
  {
    assert f[0..] == f && p[0..] == p;
  }

  lemma PrintHeadIs(r: LogRecord)
    ensures PrintHead(r) == Print(HeadFields(r), FORMAT_HEAD)
  {
    var f, p := HeadFields(r), FORMAT_HEAD;
    WholePrint(f, p);
    PrintThree(f, p, 0);
    PrintThree(f, p, 3);
    PrintThree(f, p, 6);
    PrintThree(f, p, 9);
    PrintThree(f, p, 12);
  }

  lemma PrintTailIs(r: LogRecord)
    ensures PrintTail(r) == Print(TailFields(r), FORMAT_TAIL)
  {
    var f, p := TailFields(r), FORMAT_TAIL;
    WholePrint(f, p);
    PrintThree(f, p, 0);
  }

  lemma {:induction false} PrintAppend(f: seq<string>, p: seq<Item>, g: seq<string>, q: seq<Item>)
    requires |f| == |p| && |g| == |q|
    ensures Print(f + g, p + q) == Print(f, p) + Print(g, q)
  {
    if f == [] {
      assert f + g == g && p + q == q;
    } else {
      PrintAppend(f[1..], p[1..], g, q);
      assert (f + g)[1..] == f[1..] + g && (p + q)[1..] == p[1..] + q;
    }
  }

  lemma FieldsThereAndBack(r: LogRecord, fields: seq<string>)
    requires |fields| == 18
    ensures FromFields(fields) == r <==> fields == AllFields(r)
  {
    var f := AllFields(r);
    if FromFields(fields) == r {
      assert forall i :: 0 <= i < 18 ==> fields[i] == f[i];
    }
  }

  lemma HeadFitIs(r: LogRecord)
    ensures AllFit(HeadFields(r), FORMAT_HEAD) <==> HeadFits(r)
  {
    var f, p := HeadFields(r), FORMAT_HEAD;
    forall i | 0 <= i < |f| ensures Fits(f[i], p[i].group) <==> Accepts(f[i], p[i].group) {
      GroupsAccept(f[i]);
    }
    if AllFit(f, p) {
      assert Fits(f[0], p[0].group) && Fits(f[1], p[1].group) && Fits(f[2], p[2].group) && Fits(f[3], p[3].group);
      assert Fits(f[4], p[4].group) && Fits(f[5], p[5].group) && Fits(f[6], p[6].group) && Fits(f[7], p[7].group);
      assert Fits(f[8], p[8].group) && Fits(f[9], p[9].group) && Fits(f[10], p[10].group) && Fits(f[11], p[11].group);
      assert Fits(f[12], p[12].group) && Fits(f[13], p[13].group) && Fits(f[14], p[14].group);
    }
  }

  lemma TailFitIs(r: LogRecord)
    ensures AllFit(TailFields(r), FORMAT_TAIL) <==> TailFits(r)
  {
    var f, p := TailFields(r), FORMAT_TAIL;
    forall i | 0 <= i < |f| ensures Fits(f[i], p[i].group) <==> Accepts(f[i], p[i].group) {
      GroupsAccept(f[i]);
    }
    if AllFit(f, p) {
      assert Fits(f[0], p[0].group) && Fits(f[1], p[1].group) && Fits(f[2], p[2].group);
    }
  }

  lemma FitAppend(f: seq<string>, p: seq<Item>, g: seq<string>, q: seq<Item>)
    requires |f| == |p| && |g| == |q|
    ensures AllFit(f + g, p + q) <==> AllFit(f, p) && AllFit(g, q)
  {
    if AllFit(f + g, p + q) {
      forall i | 0 <= i < |f| ensures Fits(f[i], p[i].group) {
        assert Fits((f + g)[i], (p + q)[i].group);
      }
      forall i | 0 <= i < |g| ensures Fits(g[i], q[i].group) {
        assert Fits((f + g)[|f| + i], (p + q)[|f| + i].group);
      }
    }
  }

  /**
   The log round trip: a printed line, whatever follows it, is read back as
   the record it came from exactly when every field fits its group.
   */
  lemma LogRoundTrip(r: LogRecord, tail: string)
    ensures ParseLine(PrintLine(r) + tail) == Some(r) <==> WellFormed(r)
  {
    var line := PrintLine(r) + tail;
    LineMatchesIff(r, tail);
    PatternDelimited();
    ParseIsTheMatch(line, LOG_PATTERN, AllFields(r));
    FieldsThereAndBack(r, AllFields(r));
    var parsed := Parse(line, LOG_PATTERN);
    if parsed.Some? && |parsed.value| == 18 {
      FieldsThereAndBack(r, parsed.value);
    }
  }

  lemma LineMatchesIff(r: LogRecord, tail: string)
    ensures Matches(PrintLine(r) + tail, LOG_PATTERN, AllFields(r)) <==> WellFormed(r)
  {
    PrintHeadIs(r);
    PrintTailIs(r);
    PrintAppend(HeadFields(r), FORMAT_HEAD, TailFields(r), FORMAT_TAIL);
    assert Print(AllFields(r), LOG_PATTERN) == PrintLine(r);
    HeadFitIs(r);
    TailFitIs(r);
    FitAppend(HeadFields(r), FORMAT_HEAD, TailFields(r), FORMAT_TAIL);
  }

  /** Distinct well-formed records never print alike, even when one line is cut short or runs on. */
  lemma PrintingIsInjective(r: LogRecord, s: LogRecord, tail: string, tail': string)
    requires WellFormed(r) && WellFormed(s)
    requires PrintLine(r) + tail == PrintLine(s) + tail'
    ensures r == s
  {
    LogRoundTrip(r, tail);
    LogRoundTrip(s, tail');
  }

  /**
   A request that nginx retried on a second upstream logs two times, such as
   "0.003, 0.001"; its line matches nothing, so the extractor skips it.
   */
  lemma RetriedRequestIsSkipped(r: LogRecord, t1: string, t2: string, tail: string)
    requires HeadFits(r) && Bare(t1) && t2 != "" && t2[0] != '"'
    requires r.upstreamTime == t1 + (", " + t2)
    ensures ParseLine(PrintLine(r) + tail) == None
  {
    PatternDelimited();
    PrintHeadIs(r);
    HeadFitIs(r);
    GroupsAccept(t1);
    var rest := PrintTail(r) + tail;
    assert PrintLine(r) + tail == PrintHead(r) + rest;
    ParseAppend(HeadFields(r), FORMAT_HEAD, rest, FORMAT_TAIL);
    TailStarts(r, t1, t2, tail);
  }

  lemma TailStarts(r: LogRecord, t1: string, t2: string, tail: string)
    requires Fits(t1, NonSpace) && t2 != "" && t2[0] != '"' && r.upstreamTime == t1 + (", " + t2)
    ensures Parse(PrintTail(r) + tail, FORMAT_TAIL) == None
  {
    var quoted := " \"" + (r.sslProtocol + ("\" \"" + (r.sslCipher + ("\"" + ""))));
    var after := t2 + quoted + tail;
    assert PrintTail(r) == r.upstreamTime + quoted;
    assert ", " == "," + " ";
    assert PrintTail(r) + tail == (t1 + ",") + (" " + after);
    SecondTimeBlocks(t1, after);
  }

  lemma SecondTimeBlocks(t1: string, after: string)
    requires Fits(t1, NonSpace) && after != "" && after[0] != '"'
    ensures Parse((t1 + ",") + (" " + after), FORMAT_TAIL) == None
  {
    var s := (t1 + ",") + (" " + after);
    RunStops(t1 + ",", NonSpace, " " + after);
    assert s[|t1| + 1..] == " " + after;
    assert (" " + after)[1] == after[0] && FORMAT_TAIL[0].literal[1] == '"';
  }

  // ---------- the extractor ----------

  /** The records of the lines that match and that the filters keep. */
  function Extracted(lines: seq<string>, keep: LogRecord -> bool): seq<LogRecord> {
    if lines == [] then [] else
      var front := Extracted(lines[..|lines| - 1], keep);
      match ParseLine(lines[|lines| - 1])
      case None => front
      case Some(r) => if keep(r) then front + [r] else front
  }

  function Unmatched(lines: seq<string>): nat {
    if lines == [] then 0 else
      Unmatched(lines[..|lines| - 1]) + if ParseLine(lines[|lines| - 1]) == None then 1 else 0
  }

  /** The reading loop of `extract`: every line is skipped, filtered out or recorded, once. */
  method Extract(lines: seq<string>, keep: LogRecord -> bool)
    returns (records: seq<LogRecord>, parsedCount: nat, filteredCount: nat)
    ensures records == Extracted(lines, keep)
    ensures parsedCount == |lines|
    ensures parsedCount == Unmatched(lines) + filteredCount + |records|
  {
    records, parsedCount, filteredCount := [], 0, 0;
    for i := 0 to |lines|
      invariant records == Extracted(lines[..i], keep)
      invariant parsedCount == i == Unmatched(lines[..i]) + filteredCount + |records|
    {
      assert lines[..i + 1][..i] == lines[..i];
      parsedCount := parsedCount + 1;
      var data := ParseLine(lines[i]);
      if data == None {
        continue;
      }
      if !keep(data.value) {
        filteredCount := filteredCount + 1;
        continue;
      }
      records := records + [data.value];
    }
    assert lines[..|lines|] == lines;
  }

  /** Every line is judged on its own, whatever the lines before it were. */
  lemma {:induction false} ExtractedLineByLine(lines: seq<string>, more: seq<string>, keep: LogRecord -> bool)
    ensures Extracted(lines + more, keep) == Extracted(lines, keep) + Extracted(more, keep)
    ensures Unmatched(lines + more) == Unmatched(lines) + Unmatched(more)
  {
    if more == [] {
      assert lines + more == lines;
    } else {
      var n := |more| - 1;
      assert (lines + more)[..|lines + more| - 1] == lines + more[..n];
      ExtractedLineByLine(lines, more[..n], keep);
    }
  }

  /** One line gives its record if the filters keep it, else nothing. */
  lemma OneLine(line: string, keep: LogRecord -> bool)
    ensures Extracted([line], keep)
         == if ParseLine(line).Some? && keep(ParseLine(line).value) then [ParseLine(line).value] else []
    ensures Unmatched([line]) == if ParseLine(line).None? then 1 else 0
  {
    assert [line][..0] == [];
  }

  function Kept(rs: seq<LogRecord>, keep: LogRecord -> bool): seq<LogRecord> {
    if rs == [] then [] else
      Kept(rs[..|rs| - 1], keep) + if keep(rs[|rs| - 1]) then [rs[|rs| - 1]] else []
  }

  ghost predicate IsLineOf(line: string, r: LogRecord) {
    WellFormed(r) && line == PrintLine(r) + "\n"
  }

  lemma LineParses(line: string, r: LogRecord)
    requires IsLineOf(line, r)
    ensures ParseLine(line) == Some(r)
  {
    LogRoundTrip(r, "\n");
  }

  /** A log written from well-formed records is extracted whole and in order. */
  lemma {:induction false} LogExtractedWhole(rs: seq<LogRecord>, lines: seq<string>, keep: LogRecord -> bool)
    requires |lines| == |rs|
    requires forall i :: 0 <= i < |rs| ==> IsLineOf(lines[i], rs[i])
    ensures Extracted(lines, keep) == Kept(rs, keep)
    ensures Unmatched(lines) == 0
  {
    if rs != [] {
      var n := |rs| - 1;
      LogExtractedWhole(rs[..n], lines[..n], keep);
      assert IsLineOf(lines[n], rs[n]);
      LineParses(lines[n], rs[n]);
      LastLine(lines, rs[n], keep);
      LastMatched(lines);
    }
  }

  lemma LastLine(lines: seq<string>, r: LogRecord, keep: LogRecord -> bool)
    requires lines != [] && ParseLine(lines[|lines| - 1]) == Some(r)
    ensures Extracted(lines, keep) == Extracted(lines[..|lines| - 1], keep) + if keep(r) then [r] else []
  {
  }

  lemma LastMatched(lines: seq<string>)
    requires lines != [] && ParseLine(lines[|lines| - 1]).Some?
    ensures Unmatched(lines) == Unmatched(lines[..|lines| - 1])
  {
  }
}
