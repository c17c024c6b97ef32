/** The text of one log line as vsyslog_r assembles it:
      `YYYY-MM-DDThh:mm:ss HOST IDENT[PID]: (TAG) MESSAGE\n`
    with the timestamp in the extended complete date-time form of ISO 8601
    (section 4.3.2 of ISO 8601:2004) without a zone designator. A parser is
    given as the partner of the renderer. */
module LogLine {
  import opened CInt
  import opened Decimal
  import opened Calendar
  import opened StringBuffer

  datatype Option<T> = None | Some(value: T)

  /** Priority and option values of the system <syslog.h> (glibc). */
  const LOG_EMERG: Int32 := 0
  const LOG_ALERT: Int32 := 1
  const LOG_CRIT: Int32 := 2
  const LOG_ERR: Int32 := 3
  const LOG_WARNING: Int32 := 4
  const LOG_NOTICE: Int32 := 5
  const LOG_INFO: Int32 := 6
  const LOG_DEBUG: Int32 := 7
  const LOG_PID: Int32 := 0x01
  const LOG_NOWAIT: Int32 := 0x10
  const LOG_AUTH: Int32 := 4 * 8

  /** LOG_EMERG | LOG_ALERT | ... | LOG_DEBUG, which with the values 0..7 is 7. */
  const LOG_PRIO_ALL: Int32 := 7

  /** The table of prio_to_string, in order, without its NULL sentinel. */
  const PRIO_NAMES: seq<(int, string)> := [
    (LOG_EMERG, "EMERG"), (LOG_ALERT, "ALERT"), (LOG_CRIT, "CRIT"), (LOG_ERR, "ERROR"),
    (LOG_WARNING, "WARN"), (LOG_NOTICE, "NOTICE"), (LOG_INFO, "INFO"), (LOG_DEBUG, "DEBUG")]

  /** The scan of prio_to_string from entry i on. */
  function LookupFrom(prio: int, i: nat): string
    requires i <= |PRIO_NAMES|
    decreases |PRIO_NAMES| - i
  {
    if i == |PRIO_NAMES| then "?"
    else if PRIO_NAMES[i].0 == prio then PRIO_NAMES[i].1
    else LookupFrom(prio, i + 1)
  }

  /** prio_to_string: the tag of a priority value in the table, "?" for any
      other value. */
  function PrioToString(prio: int): (r: string)
    ensures 0 <= prio < |PRIO_NAMES| ==> r == PRIO_NAMES[prio].1
    ensures !(0 <= prio < |PRIO_NAMES|) ==> r == "?"
    ensures ')' !in r && |r| > 0
  {
    LookupFrom(prio, 0)
  }

  /** The inverse of the table: the priority a tag names. */
  function TagToPrio(tag: string): Option<int>
  {
    if tag == "EMERG" then Some(LOG_EMERG)
    else if tag == "ALERT" then Some(LOG_ALERT)
    else if tag == "CRIT" then Some(LOG_CRIT)
    else if tag == "ERROR" then Some(LOG_ERR)
    else if tag == "WARN" then Some(LOG_WARNING)
    else if tag == "NOTICE" then Some(LOG_NOTICE)
    else if tag == "INFO" then Some(LOG_INFO)
    else if tag == "DEBUG" then Some(LOG_DEBUG)
    else None
  }

  /** Each priority has its own tag: reading the tag back gives the
      priority, and "?" names none. */
  lemma PrioTagRoundTrip(prio: int)
    ensures 0 <= prio < 8 ==> TagToPrio(PrioToString(prio)) == Some(prio)
    ensures !(0 <= prio < 8) ==> TagToPrio(PrioToString(prio)) == None
  {
  }

  /** The line renders `prio & LOG_PRIO_ALL`, which is always one of the
      eight table values, so a rendered line never carries "?". */
  lemma RenderedTagKnown(prio: Int32)
    ensures PrioToString(And(prio, LOG_PRIO_ALL)) != "?"
    ensures PrioToString(And(prio, LOG_PRIO_ALL)) == PRIO_NAMES[prio % 8].1
  {
    AndSeven(prio);
  }

  /** Date-time fields printf can render with the formats of the line
      (`%04d` and `%02d` of non-negative values). */
  predicate NonNegative(d: DateTime)
  {
    d.year >= 0 && d.mon >= 0 && d.mday >= 0 && d.hour >= 0 && d.min >= 0 && d.sec >= 0
  }

  /** Fields that fill their fixed widths exactly. */
  predicate FitsWidths(d: DateTime)
  {
    NonNegative(d) && d.year < 10000 && d.mon + 1 < 100 && d.mday + 1 < 100
    && d.hour < 100 && d.min < 100 && d.sec < 100
  }

  /** `%04d-%02d-%02dT%02d:%02d:%02d` of year, mon + 1, mday + 1, hour, min, sec. */
  function Timestamp(d: DateTime): string
    requires NonNegative(d)
  {
    ZeroPad(d.year, 4) + "-" + ZeroPad(d.mon + 1, 2) + "-" + ZeroPad(d.mday + 1, 2)
    + "T" + ZeroPad(d.hour, 2) + ":" + ZeroPad(d.min, 2) + ":" + ZeroPad(d.sec, 2)
  }

  predicate IsStamp(s: string)
  {
    && |s| == 19
    && AllDigits(s[0..4]) && s[4] == '-' && AllDigits(s[5..7]) && s[7] == '-'
    && AllDigits(s[8..10]) && s[10] == 'T' && AllDigits(s[11..13]) && s[13] == ':'
    && AllDigits(s[14..16]) && s[16] == ':' && AllDigits(s[17..19])
  }

  /** Reads a timestamp back, month and day turned 0-based again. */
  function ParseTimestamp(s: string): Option<DateTime>
  {
    if !IsStamp(s) then None
    else Some(DateTime(Parse(s[0..4]), Parse(s[5..7]) - 1, Parse(s[8..10]) - 1,
                       Parse(s[11..13]), Parse(s[14..16]), Parse(s[17..19])))
  }

  /** Slices of a join fall in its left or right part. */
  lemma SliceLeft(p: string, q: string, i: nat, j: nat)
    requires i <= j <= |p|
    ensures (p + q)[i..j] == p[i..j]
  {
  }

  lemma SliceRight(p: string, q: string)
    ensures (p + q)[|p|..] == q && (p + q)[..|p|] == p
  {
  }

  /** The layout of `Y-M-DTh:m:s` for digit fields of widths 4 and 2. */
  lemma StampLayout(y: string, mo: string, da: string, h: string, mi: string, se: string)
    requires |y| == 4 && |mo| == 2 && |da| == 2 && |h| == 2 && |mi| == 2 && |se| == 2
    requires AllDigits(y) && AllDigits(mo) && AllDigits(da)
    requires AllDigits(h) && AllDigits(mi) && AllDigits(se)
    ensures var s := y + "-" + mo + "-" + da + "T" + h + ":" + mi + ":" + se;
            && IsStamp(s) && s[0..4] == y && s[5..7] == mo && s[8..10] == da
            && s[11..13] == h && s[14..16] == mi && s[17..19] == se
  {
    var date := y + "-" + mo + "-" + da;
    var time := h + ":" + mi + ":" + se;
    var s := y + "-" + mo + "-" + da + "T" + h + ":" + mi + ":" + se;
    assert s == date + ("T" + time);
    SliceRight(date, "T" + time);
    SliceRight("T", time);
    assert s[11..] == time;
    assert date[0..4] == y && date[4] == '-' by {
      SliceLeft(y + "-" + mo, "-" + da, 0, 4);
      SliceLeft(y, "-" + mo, 0, 4);
    }
    assert date[5..7] == mo && date[7] == '-' by {
      SliceLeft(y + "-" + mo, "-" + da, 5, 7);
    }
    assert date[8..10] == da;
    assert time[0..2] == h && time[2] == ':' by {
      SliceLeft(h + ":" + mi, ":" + se, 0, 2);
    }
    assert time[3..5] == mi && time[5] == ':' by {
      SliceLeft(h + ":" + mi, ":" + se, 3, 5);
    }
    assert time[6..8] == se;
    SliceLeft(date, "T" + time, 0, 4);
    SliceLeft(date, "T" + time, 5, 7);
    SliceLeft(date, "T" + time, 8, 10);
    assert s[11..13] == time[0..2] && s[14..16] == time[3..5] && s[17..19] == time[6..8];
  }

  /** The timestamp is 19 characters and reads back as the date-time. */
  lemma TimestampRoundTrip(d: DateTime)
    requires FitsWidths(d)
    ensures |Timestamp(d)| == 19
    ensures ParseTimestamp(Timestamp(d)) == Some(d)
  {
    assert Pow10(2) == 100 && Pow10(4) == 10000;
    var y, mo, da := ZeroPad(d.year, 4), ZeroPad(d.mon + 1, 2), ZeroPad(d.mday + 1, 2);
    var h, mi, se := ZeroPad(d.hour, 2), ZeroPad(d.min, 2), ZeroPad(d.sec, 2);
    ZeroPadWidth(d.year, 4);
    ZeroPadWidth(d.mon + 1, 2);
    ZeroPadWidth(d.mday + 1, 2);
    ZeroPadWidth(d.hour, 2);
    ZeroPadWidth(d.min, 2);
    ZeroPadWidth(d.sec, 2);
    assert Timestamp(d) == y + "-" + mo + "-" + da + "T" + h + ":" + mi + ":" + se;
    StampLayout(y, mo, da, h, mi, se);
  }

  /** The identity as printed: `%s[%d]` of ident and pid when the options
      carry LOG_PID, the identity alone otherwise. */
  function IdentPart(ident: string, opts: Int32, pid: nat): (r: string)
    ensures |r| >= |ident| && r[..|ident|] == ident
    ensures And(opts, LOG_PID) != 0 <==> |r| > |ident|
  {
    if And(opts, LOG_PID) != 0 then ident + "[" + Dec(pid) + "]" else ident
  }

  /** `(%s) ` of the tag of `prio & LOG_PRIO_ALL`. */
  function TagText(prio: Int32): (r: string)
    ensures r == "(" + PRIO_NAMES[prio % 8].1 + ") "
  {
    RenderedTagKnown(prio);
    "(" + PrioToString(And(prio, LOG_PRIO_ALL)) + ") "
  }

  /** The texts vsyslog_r appends to the cleared line buffer, in order. */
  function Fragments(d: DateTime, host: string, ident: string, opts: Int32, pid: nat,
                     prio: Int32, msg: string): seq<string>
    requires NonNegative(d)
  {
    [Timestamp(d) + " ", host, " ", IdentPart(ident, opts, pid), ": ",
     TagText(prio), msg, "\n"]
  }

  /** The whole line. */
  function RenderLine(d: DateTime, host: string, ident: string, opts: Int32, pid: nat,
                      prio: Int32, msg: string): string
    requires NonNegative(d)
  {
    Concat(Fragments(d, host, ident, opts, pid, prio, msg))
  }

  // ---------------------------------------------------------------------
  // Reading a line back.

  /** The position of the first c in s, or |s| when there is none. */
  function IndexOf(s: string, c: char): (i: nat)
    ensures i <= |s| && c !in s[..i]
    ensures i < |s| ==> s[i] == c
  {
    if s == [] then 0
    else if s[0] == c then 0
    else
      var i := IndexOf(s[1..], c);
      assert s[..i + 1] == [s[0]] + s[1..][..i];
      i + 1
  }

  lemma IndexOfJoin(a: string, b: string, c: char)
    requires c !in a && |b| > 0 && b[0] == c
    ensures IndexOf(a + b, c) == |a|
  {
    var s := a + b;
    assert s[|a|] == c;
    assert c in s[..|a| + 1];
  }

  datatype LineParts = LineParts(stamp: DateTime, host: string, ident: string,
                                 pid: Option<nat>, tag: string, msg: string)

  /** Splits `IDENT[PID]` or `IDENT`. */
  function SplitIdent(s: string): (string, Option<nat>)
  {
    var k := IndexOf(s, '[');
    if k + 2 < |s| && s[|s| - 1] == ']' && AllDigits(s[k + 1..|s| - 1])
    then (s[..k], Some(Parse(s[k + 1..|s| - 1])))
    else (s, None)
  }

  /** Reads a line back into its parts: the host ends at the first blank
      after the timestamp, the identity at the first colon, the tag at the
      first closing parenthesis, and the message runs to the final newline. */
  function ParseLine(line: string): Option<LineParts>
  {
    if |line| < 20 || line[19] != ' ' then None
    else match ParseTimestamp(line[..19])
      case None => None
      case Some(stamp) => ParseFromHost(stamp, line[20..])
  }

  function ParseFromHost(stamp: DateTime, rest: string): Option<LineParts>
  {
    var i := IndexOf(rest, ' ');
    if i == |rest| then None else ParseFromIdent(stamp, rest[..i], rest[i + 1..])
  }

  function ParseFromIdent(stamp: DateTime, host: string, rest: string): Option<LineParts>
  {
    var j := IndexOf(rest, ':');
    if |rest| < j + 3 || rest[j..j + 3] != ": (" then None
    else ParseFromTag(stamp, host, SplitIdent(rest[..j]), rest[j + 3..])
  }

  function ParseFromTag(stamp: DateTime, host: string, id: (string, Option<nat>), rest: string)
    : Option<LineParts>
  {
    var k := IndexOf(rest, ')');
    if |rest| < k + 2 || rest[k..k + 2] != ") " then None
    else
      var msgLine := rest[k + 2..];
      if |msgLine| == 0 || msgLine[|msgLine| - 1] != '\n' then None
      else Some(LineParts(stamp, host, id.0, id.1, rest[..k], msgLine[..|msgLine| - 1]))
  }

  /** The printed identity has no colon when the identity has none. */
  lemma IdentPartNoColon(ident: string, opts: Int32, pid: nat)
    requires ':' !in ident
    ensures ':' !in IdentPart(ident, opts, pid)
  {
    assert ':' !in Dec(pid);
  }

  lemma SplitIdentRoundTrip(ident: string, opts: Int32, pid: nat)
    requires '[' !in ident
    ensures SplitIdent(IdentPart(ident, opts, pid))
            == (ident, if And(opts, LOG_PID) != 0 then Some(pid) else None)
  {
    if And(opts, LOG_PID) != 0 {
      ParseDec(pid);
      SplitBracketed(ident, Dec(pid));
    } else {
      SplitPlain(ident);
    }
  }

  /** `IDENT[DIGITS]` splits at the bracket. */
  lemma SplitBracketed(ident: string, digits: string)
    requires '[' !in ident && |digits| >= 1 && AllDigits(digits)
    ensures SplitIdent(ident + "[" + digits + "]") == (ident, Some(Parse(digits)))
  {
    BracketIndex(ident, digits);
    BracketSlices(ident, digits);
    SplitAt(ident + "[" + digits + "]", |ident|, ident, digits);
  }

  lemma BracketIndex(ident: string, digits: string)
    requires '[' !in ident
    ensures IndexOf(ident + "[" + digits + "]", '[') == |ident|
  {
    assert ident + "[" + digits + "]" == ident + ("[" + digits + "]");
    IndexOfJoin(ident, "[" + digits + "]", '[');
  }

  lemma BracketSlices(ident: string, digits: string)
    ensures var s := ident + "[" + digits + "]";
            && |s| == |ident| + |digits| + 2 && s[|s| - 1] == ']'
            && s[|ident| + 1..|s| - 1] == digits && s[..|ident|] == ident
  {
  }

  lemma SplitAt(s: string, k: nat, ident: string, digits: string)
    requires IndexOf(s, '[') == k && k + 2 < |s| && s[|s| - 1] == ']'
    requires s[k + 1..|s| - 1] == digits && AllDigits(digits) && s[..k] == ident
    ensures SplitIdent(s) == (ident, Some(Parse(digits)))
  {
  }

  /** An identity without a bracket is left whole. */
  lemma SplitPlain(ident: string)
    requires '[' !in ident
    ensures SplitIdent(ident) == (ident, None)
  {
    assert IndexOf(ident, '[') == |ident|;
  }

  lemma TagStageRoundTrip(stamp: DateTime, host: string, id: (string, Option<nat>),
                          tag: string, msg: string)
    requires ')' !in tag
    ensures ParseFromTag(stamp, host, id, tag + ") " + msg + "\n")
            == Some(LineParts(stamp, host, id.0, id.1, tag, msg))
  {
    var msgLine := msg + "\n";
    var rest := tag + ") " + msg + "\n";
    assert rest == tag + (") " + msgLine);
    IndexOfJoin(tag, ") " + msgLine, ')');
    assert rest[..|tag|] == tag;
    assert rest[|tag|..|tag| + 2] == ") ";
    assert rest[|tag| + 2..] == msgLine;
    assert msgLine[|msgLine| - 1] == '\n';
    assert msgLine[..|msgLine| - 1] == msg;
  }

  lemma IdentStageRoundTrip(stamp: DateTime, host: string, idp: string, tag: string, msg: string)
    requires ':' !in idp && ')' !in tag
    ensures ParseFromIdent(stamp, host, idp + ": (" + tag + ") " + msg + "\n")
            == Some(LineParts(stamp, host, SplitIdent(idp).0, SplitIdent(idp).1, tag, msg))
  {
    var tail := tag + ") " + msg + "\n";
    var rest := idp + ": (" + tag + ") " + msg + "\n";
    assert rest == idp + (": (" + tail);
    IndexOfJoin(idp, ": (" + tail, ':');
    assert rest[..|idp|] == idp;
    assert rest[|idp|..|idp| + 3] == ": (";
    assert rest[|idp| + 3..] == tail;
    TagStageRoundTrip(stamp, host, SplitIdent(idp), tag, msg);
  }

  lemma HostStageRoundTrip(stamp: DateTime, host: string, r2: string)
    requires ' ' !in host
    ensures ParseFromHost(stamp, host + " " + r2) == ParseFromIdent(stamp, host, r2)
  {
    var rest := host + " " + r2;
    assert rest == host + (" " + r2);
    IndexOfJoin(host, " " + r2, ' ');
    assert rest[..|host|] == host;
    assert rest[|host| + 1..] == r2;
  }

  /** The join of eight fragments, written out. */
  lemma ConcatEight(a: string, b: string, c: string, d: string,
                    e: string, f: string, g: string, h: string)
    ensures Concat([a, b, c, d, e, f, g, h]) == a + b + c + d + e + f + g + h
  {
    ConcatCons(h, []);
    ConcatCons(g, [h]);
    ConcatCons(f, [g, h]);
    ConcatCons(e, [f, g, h]);
    ConcatCons(d, [e, f, g, h]);
    ConcatCons(c, [d, e, f, g, h]);
    ConcatCons(b, [c, d, e, f, g, h]);
    ConcatCons(a, [b, c, d, e, f, g, h]);
    assert [h] + [] == [h];
    assert a + (b + (c + (d + (e + (f + (g + h)))))) == a + b + c + d + e + f + g + h;
  }

  /** A rendered line written out as the join of its eight fragments. */
  lemma RenderLineJoin(d: DateTime, host: string, ident: string, opts: Int32, pid: nat,
                       prio: Int32, msg: string)
    requires NonNegative(d)
    ensures RenderLine(d, host, ident, opts, pid, prio, msg)
            == Timestamp(d) + " " + host + " " + IdentPart(ident, opts, pid) + ": "
               + TagText(prio) + msg + "\n"
  {
    ConcatEight(Timestamp(d) + " ", host, " ", IdentPart(ident, opts, pid), ": ",
                TagText(prio), msg, "\n");
  }

  /** Where the parser cuts a rendered line after its timestamp. */
  lemma LineLayout(ts: string, host: string, idp: string, tag: string, msg: string)
    requires |ts| == 19
    ensures var line := ts + " " + host + " " + idp + ": " + ("(" + tag + ") ") + msg + "\n";
            && line[..19] == ts && line[19] == ' '
            && line[20..] == host + " " + (idp + ": (" + tag + ") " + msg + "\n")
  {
    var r2 := idp + ": (" + tag + ") " + msg + "\n";
    var line := ts + " " + host + " " + idp + ": " + ("(" + tag + ") ") + msg + "\n";
    assert line == ts + (" " + (host + " " + r2));
  }

  /** The parser recovers every part of a rendered line, provided the host
      has no blank and the identity has no colon or opening bracket. */
  lemma ParseRenderedLine(d: DateTime, host: string, ident: string, opts: Int32, pid: nat,
                          prio: Int32, msg: string)
    requires FitsWidths(d)
    requires ' ' !in host && ':' !in ident && '[' !in ident
    ensures ParseLine(RenderLine(d, host, ident, opts, pid, prio, msg))
            == Some(LineParts(d, host, ident,
                              if And(opts, LOG_PID) != 0 then Some(pid) else None,
                              PrioToString(And(prio, LOG_PRIO_ALL)), msg))
  {
    var ts := Timestamp(d);
    var idp := IdentPart(ident, opts, pid);
    var tag := PrioToString(And(prio, LOG_PRIO_ALL));
    ConcatEight(ts + " ", host, " ", idp, ": ", "(" + tag + ") ", msg, "\n");
    TimestampRoundTrip(d);
    LineLayout(ts, host, idp, tag, msg);
    HostStageRoundTrip(d, host, idp + ": (" + tag + ") " + msg + "\n");
    IdentPartNoColon(ident, opts, pid);
    IdentStageRoundTrip(d, host, idp, tag, msg);
    SplitIdentRoundTrip(ident, opts, pid);
  }

  lemma YearSample()
    ensures ZeroPad(2024, 4) == "2024"
  {
    assert Dec(2) == "2";
    assert Dec(20) == "20";
    assert Dec(202) == "202";
    assert Dec(2024) == "2024";
  }

  lemma PadSample(n: nat)
    requires 0 < n < 10
    ensures ZeroPad(n, 2) == ['0', DigitChar(n)]
  {
    assert Dec(n) == [DigitChar(n)];
  }

  lemma ExampleStamp()
    ensures Timestamp(DateTime(2024, 0, 1, 3, 4, 5)) == "2024-01-02T03:04:05"
  {
    YearSample();
    PadSample(1);
    PadSample(2);
    PadSample(3);
    PadSample(4);
    PadSample(5);
  }

  lemma ExampleIdent()
    ensures IdentPart("svc", LOG_PID, 42) == "svc[42]"
  {
    AndOne(LOG_PID);
    assert Dec(4) == "4";
    assert Dec(42) == "42";
  }

  lemma ExampleFragments()
    ensures Fragments(DateTime(2024, 0, 1, 3, 4, 5), "h1", "svc", LOG_PID, 42, LOG_WARNING, "retry 3")
            == ["2024-01-02T03:04:05 ", "h1", " ", "svc[42]", ": ", "(WARN) ", "retry 3", "\n"]
  {
    ExampleIdent();
    ExampleTag();
    ExampleStamp();
    assert Timestamp(DateTime(2024, 0, 1, 3, 4, 5)) + " " == "2024-01-02T03:04:05 ";
  }

  lemma ExampleTag()
    ensures TagText(LOG_WARNING) == "(WARN) "
  {
    RenderedTagKnown(LOG_WARNING);
    assert PrioToString(And(LOG_WARNING, LOG_PRIO_ALL)) == "WARN";
    assert "(" + "WARN" + ") " == "(WARN) ";
  }

  /** The line of the worked example: `svc` with LOG_PID, pid 42, on host
      `h1`, at priority LOG_WARNING, at 2024-01-02T03:04:05. */
  lemma ExampleLine()
    ensures RenderLine(DateTime(2024, 0, 1, 3, 4, 5), "h1", "svc", LOG_PID, 42, LOG_WARNING, "retry 3")
            == "2024-01-02T03:04:05 h1 svc[42]: (WARN) retry 3\n"
  {
    ExampleFragments();
    ExampleJoin();
  }

  lemma ExampleJoin()
    ensures Concat(["2024-01-02T03:04:05 ", "h1", " ", "svc[42]", ": ", "(WARN) ", "retry 3", "\n"])
            == "2024-01-02T03:04:05 h1 svc[42]: (WARN) retry 3\n"
  {
    ConcatHalves("2024-01-02T03:04:05 ", "h1", " ", "svc[42]", ": ", "(WARN) ", "retry 3", "\n");
    ExampleHalves();
  }

  /** Eight fragments joined as two groups of four. */
  lemma ConcatHalves(a: string, b: string, c: string, d: string,
                     e: string, f: string, g: string, h: string)
    ensures Concat([a, b, c, d, e, f, g, h]) == (a + b + c + d) + (e + f + g + h)
  {
    ConcatEight(a, b, c, d, e, f, g, h);
    assert a + b + c + d + e + f + g + h == (a + b + c + d) + (e + f + g + h);
  }

  lemma ExampleHalves()
    ensures ("2024-01-02T03:04:05 " + "h1" + " " + "svc[42]") + (": " + "(WARN) " + "retry 3" + "\n")
            == "2024-01-02T03:04:05 h1 svc[42]: (WARN) retry 3\n"
  {
    assert "2024-01-02T03:04:05 " + "h1" + " " + "svc[42]" == "2024-01-02T03:04:05 h1 svc[42]";
    assert ": " + "(WARN) " + "retry 3" + "\n" == ": (WARN) retry 3\n";
  }
}
