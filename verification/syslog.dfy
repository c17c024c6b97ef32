/** The per-logger state of syslog.c and the one operation that uses it,
    vsyslog_r: a priority test against the logger's mask, then the line
    assembled in the calling thread's buffer. The host name, the clock and
    the process id are parameters; the per-thread buffer is passed in and
    handed back. */
module Syslog {
  import opened CInt
  import opened Decimal
  import opened Calendar
  import opened StringBuffer
  import opened LogLine

  /** struct syslog_data, without the thread-local key that finds the line
      buffer. */
  datatype SyslogData = SyslogData(ident: string, opts: Int32, facility: Int32, mask: Int32)

  /** ENOMEM as Linux numbers it. */
  const ENOMEM_CODE: int := 12

  /** Size of the host name array vsyslog_r passes to gethostname, less the
      terminator. */
  const HOST_NAME_MAX: int := 64

  datatype InitOutcome = Ready(sld: SyslogData) | InitFailed(code: int)

  /** syslog_data_init. keyErr is what pthread_key_create returns and dupOk
      whether strdup gets its memory; a missing identity is replaced by the
      program name (glibc's __progname). The mask starts as LOG_PRIO_ALL. */
  function DataInit(ident: Option<string>, progname: string, opts: Int32, facility: Int32,
                    keyErr: int, dupOk: bool): (r: InitOutcome)
    requires ident.Some? ==> '\0' !in ident.value
    requires '\0' !in progname
    ensures keyErr != 0 ==> r == InitFailed(keyErr)
    ensures keyErr == 0 && !dupOk ==> r == InitFailed(ENOMEM_CODE)
    ensures keyErr == 0 && dupOk ==> r.Ready?
    ensures r.Ready? ==> r.sld.mask == LOG_PRIO_ALL && r.sld.opts == opts
                         && r.sld.facility == facility
    ensures r.Ready? && ident.Some? ==> r.sld.ident == ident.value
    ensures r.Ready? && ident.None? ==> r.sld.ident == progname
    ensures r.Ready? ==> '\0' !in r.sld.ident
  {
    if keyErr != 0 then InitFailed(keyErr)
    else
      var id := if ident.None? then progname else ident.value;
      if !dupOk then InitFailed(ENOMEM_CODE)
      else Ready(SyslogData(id, opts, facility, LOG_PRIO_ALL))
  }

  /** The priority test of vsyslog_r: a priority is logged when it shares a
      bit with the mask. */
  predicate Passes(sld: SyslogData, prio: Int32)
  {
    And(prio, sld.mask) != 0
  }

  /** A freshly opened logger logs exactly the priorities whose low three
      bits are not all zero: every priority but LOG_EMERG among 0..7. */
  lemma OpenedMaskAdmits(ident: Option<string>, progname: string, opts: Int32, facility: Int32,
                         prio: Int32)
    requires ident.Some? ==> '\0' !in ident.value
    requires '\0' !in progname
    ensures var r := DataInit(ident, progname, opts, facility, 0, true);
            r.Ready? && (Passes(r.sld, prio) <==> prio % 8 != 0)
  {
    AndSeven(prio);
  }

  /** LOG_EMERG is 0 and shares no bit with any mask. */
  lemma EmergNeverPasses(sld: SyslogData)
    ensures !Passes(sld, LOG_EMERG)
  {
    AndZero(sld.mask);
  }

  /** setlogmask_r: install the new mask and hand back the previous one. */
  function SetLogMask(sld: SyslogData, mask: Int32): (r: (Int32, SyslogData))
    ensures r.0 == sld.mask && r.1.mask == mask
    ensures r.1.ident == sld.ident && r.1.opts == sld.opts && r.1.facility == sld.facility
  {
    (sld.mask, sld.(mask := mask))
  }

  /** Installing the mask that setlogmask_r returned restores the logger and
      returns the mask that was set in between. */
  lemma SetLogMaskRestores(sld: SyslogData, mask: Int32)
    ensures var (prev, s1) := SetLogMask(sld, mask);
            SetLogMask(s1, prev) == (mask, sld)
  {
  }

  /** Clearing the LOG_WARNING bit from the default mask (leaving 3)
      silences warnings and still lets errors through. */
  lemma MaskWithoutWarning(sld: SyslogData)
    requires sld.mask == LOG_PRIO_ALL
    ensures var (prev, s) := SetLogMask(sld, LOG_PRIO_ALL - LOG_WARNING);
            prev == LOG_PRIO_ALL && !Passes(s, LOG_WARNING) && Passes(s, LOG_ERR)
  {
    WarningOutsideThree();
    ErrorInsideThree();
  }

  lemma WarningOutsideThree()
    ensures And(LOG_WARNING, 3) == 0
  {
    WarningBits(4, 3);
  }

  lemma WarningBits(x: nat, y: nat)
    requires x == 4 && y == 3
    ensures AndBits(x, y, 32) == 0
  {
    var x1, y1 := x / 2, y / 2;
    assert x1 == 2 && y1 == 1 && x1 / 2 == 1 && y1 / 2 == 0;
    AndBitsZeroRight(x1 / 2, 30);
    assert AndBits(x1, y1, 31) == 0;
  }

  lemma ErrorInsideThree()
    ensures And(LOG_ERR, 3) == 3
  {
    ErrorBits(3, 3);
  }

  lemma ErrorBits(x: nat, y: nat)
    requires x == 3 && y == 3
    ensures AndBits(x, y, 32) == 3
  {
    AndBitsZeroLeft(x / 4, 30);
    assert AndBits(x / 2, y / 2, 31) == 1;
  }

  /** The result of one vsyslog_r call: the bytes handed to write (None
      when the mask filters the priority out) and the thread's buffer. */
  datatype LogResult = LogResult(line: Option<string>, buf: StrBuf)

  /** vsyslog_r on a message msg the format has already expanded to, at
      wall-clock second now, on host host, in process pid. allocOk is the
      answer of realloc to every growth the call asks for. Each append's
      error is ignored, as in the source: a fragment that cannot be stored
      is left out of the line. The timestamp comes from the converter as
      written, with its December 31 year. */
  function Log(sld: SyslogData, buf: StrBuf, prio: Int32, now: int, host: string, pid: nat,
               msg: string, allocOk: bool): (r: LogResult)
    requires Valid(buf)
    requires 0 <= now < EPOCH_LIMIT
    requires '\0' !in host && |host| <= HOST_NAME_MAX
    requires pid < INT_LIMIT
    requires '\0' !in sld.ident
    requires And(sld.opts, LOG_PID) == 0 ==> '%' !in sld.ident
    ensures Valid(r.buf)
    ensures r.line.None? <==> !Passes(sld, prio)
    ensures r.line.None? ==> r.buf == buf
    ensures r.line.Some? ==> r.line.value == Contents(r.buf)
    ensures r.line.Some? ==> r.buf.allocSz >= buf.allocSz
  {
    if !Passes(sld, prio) then LogResult(None, buf)
    else
      StampFits(now);
      var b := LogHeader(Clear(buf), FromEpoch(now), host, allocOk);
      var b' := LogBody(b, sld.ident, sld.opts, pid, prio, msg, allocOk);
      LogResult(Some(Contents(b')), b')
  }

  lemma StampFits(now: int)
    requires 0 <= now < EPOCH_LIMIT
    ensures FitsWidths(FromEpoch(now))
  {
  }

  /** The first three appends of vsyslog_r: timestamp and blank, host name,
      blank. */
  function LogHeader(b: StrBuf, dt: DateTime, host: string, allocOk: bool): (r: StrBuf)
    requires Valid(b) && NonNegative(dt)
    requires '\0' !in host && |host| <= HOST_NAME_MAX
    ensures Valid(r) && r.allocSz >= b.allocSz
    ensures r == AppendEach(b, HeaderParts(dt, host), allocOk)
  {
    var s := Timestamp(dt) + " ";
    var b1 := VAppendF(b, s, allocOk).buf;
    var b2 := Append(b1, host + ['\0'], allocOk).buf;
    HeaderAppends(b, s, b1, host, allocOk);
    AppendN(b2, " ", allocOk).buf
  }

  /** The texts the first three appends store: what vappendf keeps of the
      timestamp and blank, the host name, and a blank. */
  function HeaderParts(dt: DateTime, host: string): (r: seq<string>)
    requires NonNegative(dt) && |host| <= HOST_NAME_MAX
    ensures AllFit(r)
  {
    var stamp := Printed(Timestamp(dt) + " ");
    HostFits(host);
    AllFitJoin(stamp, [host, " "]);
    stamp + [host, " "]
  }

  lemma HostFits(host: string)
    requires |host| <= HOST_NAME_MAX
    ensures AllFit([host, " "])
  {
  }

  lemma HeaderAppends(b: StrBuf, s: string, b1: StrBuf, host: string, allocOk: bool)
    requires Valid(b) && b1 == VAppendF(b, s, allocOk).buf
    requires '\0' !in host && |host| <= HOST_NAME_MAX
    ensures AllFit(Printed(s) + [host, " "])
    ensures AppendN(Append(b1, host + ['\0'], allocOk).buf, " ", allocOk).buf
            == AppendEach(b, Printed(s) + [host, " "], allocOk)
  {
    VAppendFEach(b, s, allocOk);
    AppendTerminated(b1, host, allocOk);
    AppendTwo(b1, host, " ", allocOk);
    AppendEachJoin(b, Printed(s), [host, " "], allocOk);
  }

  /** Two appends in a row, written out. */
  lemma AppendTwo(b: StrBuf, t1: string, t2: string, allocOk: bool)
    requires Valid(b) && |t1| < SIZE_T_LIMIT && |t2| < SIZE_T_LIMIT
    ensures AllFit([t1, t2])
    ensures AppendEach(b, [t1, t2], allocOk) == AppendN(AppendN(b, t1, allocOk).buf, t2, allocOk).buf
  {
    AppendEachOne(AppendN(b, t1, allocOk).buf, t2, allocOk);
    AppendEachCons(b, t1, [t2], allocOk);
  }

  /** The remaining appends: identity, separator, tag, message, newline. */
  function LogBody(b: StrBuf, ident: string, opts: Int32, pid: nat, prio: Int32, msg: string,
                   allocOk: bool): (r: StrBuf)
    requires Valid(b)
    ensures Valid(r) && r.allocSz >= b.allocSz
    ensures r == AppendEach(b, BodyParts(ident, opts, pid, prio, msg), allocOk)
  {
    var idp := IdentPart(ident, opts, pid);
    var b4 := VAppendF(b, idp, allocOk).buf;
    var b5 := AppendN(b4, ": ", allocOk).buf;
    var b6 := VAppendF(b5, TagText(prio), allocOk).buf;
    var b7 := VAppendF(b6, msg, allocOk).buf;
    BodyHeadAppends(b, idp, TagText(prio), allocOk);
    BodyTailAppends(b, Printed(idp) + [": "] + Printed(TagText(prio)), b6, msg, allocOk);
    AppendN(b7, "\n", allocOk).buf
  }

  /** The texts the last five appends store: what vappendf keeps of the
      identity, the separator, what it keeps of the tag and of the message,
      and the newline. */
  function BodyParts(ident: string, opts: Int32, pid: nat, prio: Int32, msg: string): (r: seq<string>)
    ensures AllFit(r)
  {
    var idp := Printed(IdentPart(ident, opts, pid));
    AllFitJoin(idp, [": "]);
    AllFitJoin(idp + [": "], Printed(TagText(prio)));
    AllFitJoin(idp + [": "] + Printed(TagText(prio)), Printed(msg));
    AllFitJoin(idp + [": "] + Printed(TagText(prio)) + Printed(msg), ["\n"]);
    Printed(IdentPart(ident, opts, pid)) + [": "] + Printed(TagText(prio)) + Printed(msg) + ["\n"]
  }

  lemma BodyHeadAppends(b: StrBuf, idp: string, tag: string, allocOk: bool)
    requires Valid(b)
    ensures AllFit(Printed(idp) + [": "] + Printed(tag))
    ensures var b5 := AppendN(VAppendF(b, idp, allocOk).buf, ": ", allocOk).buf;
            VAppendF(b5, tag, allocOk).buf
            == AppendEach(b, Printed(idp) + [": "] + Printed(tag), allocOk)
  {
    var b4 := VAppendF(b, idp, allocOk).buf;
    var b5 := AppendN(b4, ": ", allocOk).buf;
    VAppendFEach(b, idp, allocOk);
    AppendEachOne(b4, ": ", allocOk);
    AppendEachJoin(b, Printed(idp), [": "], allocOk);
    VAppendFEach(b5, tag, allocOk);
    AppendEachJoin(b, Printed(idp) + [": "], Printed(tag), allocOk);
  }

  lemma BodyTailAppends(b: StrBuf, head: seq<string>, b6: StrBuf, msg: string, allocOk: bool)
    requires Valid(b) && AllFit(head) && b6 == AppendEach(b, head, allocOk)
    ensures AllFit(head + Printed(msg) + ["\n"])
    ensures AppendN(VAppendF(b6, msg, allocOk).buf, "\n", allocOk).buf
            == AppendEach(b, head + Printed(msg) + ["\n"], allocOk)
  {
    var b7 := VAppendF(b6, msg, allocOk).buf;
    VAppendFEach(b6, msg, allocOk);
    AppendEachJoin(b, head, Printed(msg), allocOk);
    AppendEachOne(b7, "\n", allocOk);
    AppendEachJoin(b, head + Printed(msg), ["\n"], allocOk);
  }

  /** The texts a logged call at second now stores in the cleared line
      buffer, in order. */
  function LineFragments(sld: SyslogData, prio: Int32, now: int, host: string, pid: nat,
                         msg: string): (r: seq<string>)
    requires 0 <= now < EPOCH_LIMIT && |host| <= HOST_NAME_MAX
    ensures AllFit(r)
  {
    StampFits(now);
    AllFitJoin(HeaderParts(FromEpoch(now), host), BodyParts(sld.ident, sld.opts, pid, prio, msg));
    HeaderParts(FromEpoch(now), host) + BodyParts(sld.ident, sld.opts, pid, prio, msg)
  }

  /** A logged call is the fragments appended one after the other to the
      cleared buffer, each append's error ignored; a vappendf whose text is
      2^31 bytes or longer stores nothing. */
  lemma LogAppendsFragments(sld: SyslogData, buf: StrBuf, prio: Int32, now: int, host: string,
                            pid: nat, msg: string, allocOk: bool)
    requires Valid(buf)
    requires 0 <= now < EPOCH_LIMIT
    requires '\0' !in host && |host| <= HOST_NAME_MAX
    requires pid < INT_LIMIT
    requires '\0' !in sld.ident
    requires And(sld.opts, LOG_PID) == 0 ==> '%' !in sld.ident
    requires Passes(sld, prio)
    ensures AllFit(LineFragments(sld, prio, now, host, pid, msg))
    ensures Log(sld, buf, prio, now, host, pid, msg, allocOk).buf
            == AppendEach(Clear(buf), LineFragments(sld, prio, now, host, pid, msg), allocOk)
  {
    var dt := FromEpoch(now);
    StampFits(now);
    var head := HeaderParts(dt, host);
    var body := BodyParts(sld.ident, sld.opts, pid, prio, msg);
    var b := LogHeader(Clear(buf), dt, host, allocOk);
    assert Log(sld, buf, prio, now, host, pid, msg, allocOk).buf
        == LogBody(b, sld.ident, sld.opts, pid, prio, msg, allocOk);
    assert LineFragments(sld, prio, now, host, pid, msg) == head + body;
    AppendEachJoin(Clear(buf), head, body, allocOk);
  }

  /** The tag fragment is short. */
  lemma TagShort(prio: Int32)
    ensures |TagText(prio)| < 10
  {
    RenderedTagKnown(prio);
  }

  /** The joined header parts. */
  lemma HeaderText(dt: DateTime, host: string)
    requires FitsWidths(dt) && |host| <= HOST_NAME_MAX
    ensures Concat(HeaderParts(dt, host)) == Timestamp(dt) + " " + host + " "
  {
    var s := Timestamp(dt) + " ";
    TimestampRoundTrip(dt);
    ConcatJoin(Printed(s), [host, " "]);
    ConcatCons(host, [" "]);
    ConcatCons(" ", []);
  }

  /** The joined identity, separator and tag parts. */
  lemma BodyHeadText(idp: string, tag: string)
    requires |tag| < INT_LIMIT
    ensures Concat(Printed(idp) + [": "] + Printed(tag)) == Kept(idp) + ": " + tag
  {
    ConcatJoin(Printed(idp), [": "]);
    ConcatCons(": ", []);
    ConcatJoin(Printed(idp) + [": "], Printed(tag));
  }

  /** The joined body parts, with what vappendf keeps of identity, tag and
      message. */
  lemma BodyText(ident: string, opts: Int32, pid: nat, prio: Int32, msg: string)
    ensures Concat(BodyParts(ident, opts, pid, prio, msg))
            == Kept(IdentPart(ident, opts, pid)) + ": " + TagText(prio) + Kept(msg) + "\n"
  {
    var idp, tag := IdentPart(ident, opts, pid), TagText(prio);
    var head := Printed(idp) + [": "] + Printed(tag);
    TagShort(prio);
    BodyHeadText(idp, tag);
    ConcatJoin(head, Printed(msg));
    ConcatJoin(head + Printed(msg), ["\n"]);
    ConcatCons("\n", []);
  }

  /** Header text followed by body text, regrouped. */
  lemma JoinHeaderBody(h: string, a: string, b: string, c: string, d: string, e: string)
    ensures h + (a + b + c + d + e) == h + a + b + c + d + e
  {
  }

  /** The text of a logged line: every fragment, where identity and message
      are kept only when their length fits in an int. */
  lemma LineText(sld: SyslogData, prio: Int32, now: int, host: string, pid: nat, msg: string)
    requires 0 <= now < EPOCH_LIMIT && |host| <= HOST_NAME_MAX
    ensures Concat(LineFragments(sld, prio, now, host, pid, msg))
            == Timestamp(FromEpoch(now)) + " " + host + " " + Kept(IdentPart(sld.ident, sld.opts, pid))
               + ": " + TagText(prio) + Kept(msg) + "\n"
  {
    var dt := FromEpoch(now);
    StampFits(now);
    var h := HeaderParts(dt, host);
    var bd := BodyParts(sld.ident, sld.opts, pid, prio, msg);
    assert LineFragments(sld, prio, now, host, pid, msg) == h + bd;
    ConcatJoin(h, bd);
    HeaderText(dt, host);
    BodyText(sld.ident, sld.opts, pid, prio, msg);
    JoinHeaderBody(Timestamp(dt) + " " + host + " ", Kept(IdentPart(sld.ident, sld.opts, pid)),
                   ": ", TagText(prio), Kept(msg), "\n");
  }

  /** A logged line stays far below 2^63 bytes. */
  lemma LineLength(sld: SyslogData, prio: Int32, now: int, host: string, pid: nat, msg: string)
    requires 0 <= now < EPOCH_LIMIT && |host| <= HOST_NAME_MAX
    ensures |Concat(LineFragments(sld, prio, now, host, pid, msg))| < SIZE_T_HALF
  {
    StampFits(now);
    TimestampRoundTrip(FromEpoch(now));
    TagShort(prio);
    LineText(sld, prio, now, host, pid, msg);
  }

  /** When realloc grants every request, a logged call writes timestamp,
      host, identity, tag and message; an identity or message of 2^31 bytes
      or more is missing from the line, as vsnprintf cannot report its
      length. */
  lemma LogWritesLine(sld: SyslogData, buf: StrBuf, prio: Int32, now: int, host: string,
                      pid: nat, msg: string)
    requires Valid(buf)
    requires 0 <= now < EPOCH_LIMIT
    requires '\0' !in host && |host| <= HOST_NAME_MAX
    requires pid < INT_LIMIT
    requires '\0' !in sld.ident
    requires And(sld.opts, LOG_PID) == 0 ==> '%' !in sld.ident
    requires Passes(sld, prio)
    ensures Log(sld, buf, prio, now, host, pid, msg, true).line
            == Some(Timestamp(FromEpoch(now)) + " " + host + " "
                    + Kept(IdentPart(sld.ident, sld.opts, pid)) + ": " + TagText(prio)
                    + Kept(msg) + "\n")
  {
    LogAppendsFragments(sld, buf, prio, now, host, pid, msg, true);
    LineText(sld, prio, now, host, pid, msg);
    LineLength(sld, prio, now, host, pid, msg);
    AppendEachGranted(Clear(buf), LineFragments(sld, prio, now, host, pid, msg));
  }

  /** Identity (with its process id) and message are short enough for
      vsnprintf to report their length. */
  predicate LengthsFitInt(ident: string, opts: Int32, pid: nat, msg: string)
  {
    |IdentPart(ident, opts, pid)| < INT_LIMIT && |msg| < INT_LIMIT
  }

  /** When realloc grants every request and identity and message are below
      2^31 bytes, a logged call hands write exactly the rendered line. */
  lemma LogRendersLine(sld: SyslogData, buf: StrBuf, prio: Int32, now: int, host: string,
                       pid: nat, msg: string)
    requires Valid(buf)
    requires 0 <= now < EPOCH_LIMIT
    requires '\0' !in host && |host| <= HOST_NAME_MAX
    requires pid < INT_LIMIT
    requires '\0' !in sld.ident
    requires And(sld.opts, LOG_PID) == 0 ==> '%' !in sld.ident
    requires Passes(sld, prio)
    requires LengthsFitInt(sld.ident, sld.opts, pid, msg)
    ensures StampFitsNow(now)
    ensures Log(sld, buf, prio, now, host, pid, msg, true).line
            == Some(RenderLine(FromEpoch(now), host, sld.ident, sld.opts, pid, prio, msg))
  {
    StampFits(now);
    LogWritesLine(sld, buf, prio, now, host, pid, msg);
    RenderLineJoin(FromEpoch(now), host, sld.ident, sld.opts, pid, prio, msg);
  }

  predicate StampFitsNow(now: int)
  {
    0 <= now < EPOCH_LIMIT && FitsWidths(FromEpoch(now))
  }

  /** A message of 2^31 bytes or more is dropped: the line has everything
      else, as if the message were empty. */
  lemma LogDropsLongMessage(sld: SyslogData, buf: StrBuf, prio: Int32, now: int, host: string,
                            pid: nat, msg: string)
    requires Valid(buf)
    requires 0 <= now < EPOCH_LIMIT
    requires '\0' !in host && |host| <= HOST_NAME_MAX
    requires pid < INT_LIMIT
    requires '\0' !in sld.ident
    requires And(sld.opts, LOG_PID) == 0 ==> '%' !in sld.ident
    requires Passes(sld, prio)
    requires |IdentPart(sld.ident, sld.opts, pid)| < INT_LIMIT && |msg| >= INT_LIMIT
    ensures StampFitsNow(now)
    ensures Log(sld, buf, prio, now, host, pid, msg, true).line
            == Some(RenderLine(FromEpoch(now), host, sld.ident, sld.opts, pid, prio, ""))
  {
    StampFits(now);
    LogWritesLine(sld, buf, prio, now, host, pid, msg);
    RenderLineJoin(FromEpoch(now), host, sld.ident, sld.opts, pid, prio, "");
    var front := Timestamp(FromEpoch(now)) + " " + host + " " + IdentPart(sld.ident, sld.opts, pid)
                 + ": " + TagText(prio);
    assert front + "" == front;
  }

  /** When the thread's buffer already holds a block larger than the line,
      no allocation is requested and the line is complete whatever realloc
      would answer; the block keeps its size. */
  lemma LogInPlace(sld: SyslogData, buf: StrBuf, prio: Int32, now: int, host: string,
                   pid: nat, msg: string, allocOk: bool)
    requires Valid(buf)
    requires 0 <= now < EPOCH_LIMIT
    requires '\0' !in host && |host| <= HOST_NAME_MAX
    requires pid < INT_LIMIT
    requires '\0' !in sld.ident
    requires And(sld.opts, LOG_PID) == 0 ==> '%' !in sld.ident
    requires Passes(sld, prio)
    requires LengthsFitInt(sld.ident, sld.opts, pid, msg)
    requires StampFitsNow(now)
    requires |RenderLine(FromEpoch(now), host, sld.ident, sld.opts, pid, prio, msg)| < buf.allocSz
    ensures Log(sld, buf, prio, now, host, pid, msg, allocOk).line
            == Some(RenderLine(FromEpoch(now), host, sld.ident, sld.opts, pid, prio, msg))
    ensures Log(sld, buf, prio, now, host, pid, msg, allocOk).buf.allocSz == buf.allocSz
  {
    LogAppendsFragments(sld, buf, prio, now, host, pid, msg, allocOk);
    LineText(sld, prio, now, host, pid, msg);
    RenderLineJoin(FromEpoch(now), host, sld.ident, sld.opts, pid, prio, msg);
    AppendEachInPlace(Clear(buf), LineFragments(sld, prio, now, host, pid, msg), allocOk);
  }

  /** End to end: the line a logged call writes reads back as its
      timestamp, host, identity, process id (with LOG_PID), tag and
      message. */
  lemma LoggedLineParses(sld: SyslogData, buf: StrBuf, prio: Int32, now: int, host: string,
                         pid: nat, msg: string)
    requires Valid(buf)
    requires 0 <= now < EPOCH_LIMIT
    requires '\0' !in host && ' ' !in host && |host| <= HOST_NAME_MAX
    requires pid < INT_LIMIT
    requires ':' !in sld.ident && '[' !in sld.ident
    requires '\0' !in sld.ident
    requires And(sld.opts, LOG_PID) == 0 ==> '%' !in sld.ident
    requires Passes(sld, prio)
    requires LengthsFitInt(sld.ident, sld.opts, pid, msg)
    ensures var r := Log(sld, buf, prio, now, host, pid, msg, true);
            r.line.Some? && ParseLine(r.line.value)
            == Some(LineParts(FromEpoch(now), host, sld.ident,
                              if And(sld.opts, LOG_PID) != 0 then Some(pid) else None,
                              PRIO_NAMES[prio % 8].1, msg))
  {
    LogRendersLine(sld, buf, prio, now, host, pid, msg);
    ParseRenderedLine(FromEpoch(now), host, sld.ident, sld.opts, pid, prio, msg);
    RenderedTagKnown(prio);
  }

  /** The date a written line carries, against the Gregorian date of its
      second: every field agrees, except that on December 31 the line names
      the following year. */
  lemma LoggedYearSkew(sld: SyslogData, buf: StrBuf, prio: Int32, now: int, host: string,
                       pid: nat, msg: string)
    requires Valid(buf)
    requires 0 <= now < EPOCH_LIMIT
    requires '\0' !in host && ' ' !in host && |host| <= HOST_NAME_MAX
    requires pid < INT_LIMIT
    requires ':' !in sld.ident && '[' !in sld.ident
    requires '\0' !in sld.ident
    requires And(sld.opts, LOG_PID) == 0 ==> '%' !in sld.ident
    requires Passes(sld, prio)
    requires LengthsFitInt(sld.ident, sld.opts, pid, msg)
    ensures var r := Log(sld, buf, prio, now, host, pid, msg, true);
            var c := FromEpochCorrected(now);
            && r.line.Some? && ParseLine(r.line.value).Some?
            && ParseLine(r.line.value).value.stamp
               == c.(year := c.year + (if c.mon == 11 && c.mday == 30 then 1 else 0))
  {
    LoggedLineParses(sld, buf, prio, now, host, pid, msg);
    AsWrittenSkew(now);
  }

  /** The options of the bundled test program, LOG_PID | LOG_NOWAIT; the
      two bits are disjoint, so the OR is their sum. */
  const TEST_OPTS: Int32 := LOG_PID + LOG_NOWAIT

  /** `%d` of n has at most 1 + n / 10 digits. */
  lemma {:induction false} DecShort(n: nat)
    ensures |Dec(n)| <= 1 + n / 10
  {
    if n >= 10 {
      DecShort(n / 10);
    }
  }

  /** A 32-bit process id has at most ten digits. */
  lemma PidDigits(pid: nat)
    requires pid < INT_LIMIT
    ensures |Dec(pid)| <= 10
  {
    assert Pow10(10) == 10_000_000_000;
    DecLength(pid, 10);
  }

  lemma TestProgramParts(pid: nat)
    requires pid < INT_LIMIT
    ensures IdentPart("*IDENT*", TEST_OPTS, pid) == "*IDENT*[" + Dec(pid) + "]"
    ensures TagText(LOG_WARNING) == "(WARN) "
    ensures LengthsFitInt("*IDENT*", TEST_OPTS, pid, "test 123")
  {
    AndOne(TEST_OPTS);
    RenderedTagKnown(LOG_WARNING);
    DecShort(pid);
  }

  lemma TestProgramRender(dt: DateTime, host: string, pid: nat)
    requires NonNegative(dt) && pid < INT_LIMIT
    ensures RenderLine(dt, host, "*IDENT*", TEST_OPTS, pid, LOG_WARNING, "test 123")
            == Timestamp(dt) + " " + host + " *IDENT*[" + Dec(pid) + "]: (WARN) test 123\n"
  {
    TestProgramParts(pid);
    RenderLineJoin(dt, host, "*IDENT*", TEST_OPTS, pid, LOG_WARNING, "test 123");
    TestProgramTail(Timestamp(dt) + " " + host, Dec(pid));
  }

  lemma TestProgramTail(head: string, digits: string)
    ensures head + " " + ("*IDENT*[" + digits + "]") + ": " + "(WARN) " + "test 123" + "\n"
            == head + " *IDENT*[" + digits + "]: (WARN) test 123\n"
  {
  }

  /** The bundled test program: open as `*IDENT*` with LOG_PID | LOG_NOWAIT
      under LOG_AUTH, then log `test 123` at LOG_WARNING. The default mask
      lets the warning through and the line carries the identity with the
      process id and the WARN tag. The call runs on the per-thread block of
      str_buf_init(1024), which the line fits, so the block keeps its 1025
      bytes. */
  lemma TestProgramLine(now: int, host: string, pid: nat)
    requires 0 <= now < EPOCH_LIMIT
    requires '\0' !in host && |host| <= HOST_NAME_MAX
    requires pid < INT_LIMIT
    ensures StampFitsNow(now)
    ensures var init := DataInit(Some("*IDENT*"), "", TEST_OPTS, LOG_AUTH, 0, true);
            init.Ready?
            && var r := Log(init.sld, Init(1024, true).buf, LOG_WARNING, now, host, pid,
                            "test 123", true);
               r.line == Some(Timestamp(FromEpoch(now)) + " " + host + " *IDENT*[" + Dec(pid)
                              + "]: (WARN) test 123\n")
               && r.buf.allocSz == 1025
  {
    var sld := DataInit(Some("*IDENT*"), "", TEST_OPTS, LOG_AUTH, 0, true).sld;
    var buf := Init(1024, true).buf;
    ThreadBufferInit();
    OpenedMaskAdmits(Some("*IDENT*"), "", TEST_OPTS, LOG_AUTH, LOG_WARNING);
    TestProgramParts(pid);
    StampFits(now);
    TimestampRoundTrip(FromEpoch(now));
    PidDigits(pid);
    TestProgramRender(FromEpoch(now), host, pid);
    LogInPlace(sld, buf, LOG_WARNING, now, host, pid, "test 123", true);
  }
}
