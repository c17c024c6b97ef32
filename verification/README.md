# syslog-emu core in Dafny

A model of the core of syslog-emu's `syslog.c`, a user-space emulation of the
system logger. It covers:

- the growable line buffer `str_buf` (alloc, grow, appendn, append, vappendf,
  clear, init, destroy);
- the epoch-seconds-to-date converter `datetime_init_from_timeval`;
- the logger state of `syslog_data_init` and the mask swap of `setlogmask_r`;
- the tag table `prio_to_string`;
- the mask test and the line assembly of `vsyslog_r`.

Every operation is a pure function over immutable values. A C call that
mutates a struct and returns an error code becomes a function that returns an
`Outcome`, which is the error code together with the buffer as the call leaves
it. The C integer types are written out. `size_t` is an integer below 2^64
whose additions and shifts wrap, and `int` is a 32-bit two's-complement value
whose `&` works bit by bit on its pattern. vsnprintf returns an `int`, so a
text of 2^31 bytes or more gets -1, which vappendf turns into a growth of
SIZE_MAX bytes that fails; such a fragment is missing from the line.

Files, one module each:

| file | module | contents |
|---|---|---|
| `c_int.dfy` | `CInt` | `size_t` and `int`, wrap-around add and shift, bitwise AND |
| `decimal.dfy` | `Decimal` | `%d` and `%0Nd` of non-negative numbers, and a digit parser as their inverse |
| `str_buf.dfy` | `StringBuffer` | `str_buf` and its operations; appending a list of fragments and ignoring each error |
| `calendar.dfy` | `Calendar` | the converter as written, a corrected converter, and a Gregorian reference calendar |
| `log_line.dfy` | `LogLine` | the tag table, the timestamp, the fragments of a line, and a line parser as the renderer's inverse |
| `syslog.dfy` | `Syslog` | logger state, `setlogmask_r`, and `vsyslog_r` over the thread's buffer |

Some inputs that come from the operating system are parameters:

- the wall-clock second, from `gettimeofday`;
- the host name, from `gethostname`;
- the process id, from `getpid`;
- realloc's answer, `allocOk`;
- the results of `pthread_key_create` and `strdup`.

`Log` returns the bytes it would hand to `write`, together with the thread's
buffer as the call leaves it.

## Model

| member | source | states |
|---|---|---|
| CInt.Add | syslog.c:68 | A `size_t` sum is the true sum when that sum is below 2^64, and the true sum less 2^64 otherwise. |
| CInt.SumWrapDetected | syslog.c:68-70 | The test `s < a \|\| s < b` on the wrapped sum fires exactly when the true sum does not fit in a `size_t`. |
| CInt.Shl1 | syslog.c:49 | `x <<= 1` doubles x when the result fits, and otherwise loses the top bit (2x - 2^64). |
| CInt.AndSeven | syslog.c:386 | `prio & LOG_PRIO_ALL` (that is `& 7`) is the non-negative residue of prio modulo 8, also for negative prio, so it always lies in 0..7. |
| CInt.AndOne | syslog.c:378 | `opts & LOG_PID` (that is `& 1`) is the lowest bit of opts. |
| CInt.And | syslog.c:364 | C's `&` on two ints, taken bit by bit on their 32-bit two's-complement patterns. Its values for the masks the logger uses are stated by AndSeven, AndOne and Syslog.EmergNeverPasses. |
| CInt.ToSize | syslog.c:99 | An int stored in a `size_t` keeps a non-negative value and turns a negative one into 2^64 plus it, so -1 becomes SIZE_MAX. |
| StringBuffer.Realloc | syslog.c:54 | The new block has the requested size and begins with the old bytes. |
| StringBuffer.DoublingReaches | syslog.c:46-52 | The doubling loop from a counter x: it passes once x reaches the target and fails when a shift yields 0. Its outcome is stated by DoublingFromOne and DoublingWrapPasses. |
| StringBuffer.DoublingGuard | syslog.c:46-52 | The doubling loop started from the current capacity, or from 1 for an empty buffer. |
| StringBuffer.DoublingWrapPasses | syslog.c:46-52 | From capacity 0xB000_0000_0000_0000 and a target one above it, the first shift wraps to 0x6000_0000_0000_0000, which is not 0, and the guard still passes. The loop is therefore not a complete overflow test. |
| StringBuffer.DoublingFromOne | syslog.c:46-52 | Started from capacity 1 (an empty buffer), the doubling guard passes exactly for targets of at most 2^63 and reports ENOMEM for every larger target. |
| StringBuffer.AllocBuffer | syslog.c:38-62 | If the request fits, the buffer is unchanged. On success the block is exactly requiredSz + 1 bytes, `sz` and the old bytes are kept, and the capacity never shrinks. On ENOMEM the buffer is unchanged. SIZE_MAX always fails, and a refused realloc fails. For any other request that needs a larger block, the call succeeds exactly when realloc grants it and the doubling guard, started from the capacity (or 1 without a block), reaches `requiredSz + 1`. A granted request below 2^63 always succeeds. |
| StringBuffer.Enlarge | syslog.c:44-59 | The enlarging branch succeeds exactly when the doubling guard passes and realloc grants the request. The new block is then exactly the requested size and starts with the old bytes. |
| StringBuffer.DoublingWithoutWrap | syslog.c:46-52 | If some doubling of the counter reaches the target while staying below 2^64, the guard passes. |
| StringBuffer.ThreadBufferGrantsHalfRange | syslog.c:46-52 | The outcome depends on the capacity. The 1025-byte per-thread block is granted a request of 2^63 bytes, because 1025 * 2^53 reaches it without a wrap. The empty buffer refuses the same request. |
| StringBuffer.EmptyBufferRefusesHalfRange | syslog.c:46-52 | An empty buffer refuses every request of 2^63 bytes or more, even those whose size would still be representable. |
| StringBuffer.GrowBuffer | syslog.c:64-73 | If `sz + delta` wraps, the call fails and leaves the buffer unchanged. If the current block already has room, nothing changes. Otherwise the result equals AllocBuffer's for `sz + delta`, so the doubling guard decides the outcome in the same way. |
| StringBuffer.AppendN | syslog.c:75-88 | On success the contents are the old contents followed by str, `sz` grows by the length of str, and a terminator sits at `p[sz]` inside the block. On ENOMEM the buffer is unchanged. The capacity never shrinks. The call fails when `sz + |str|` reaches SIZE_MAX or realloc refuses a needed growth. It succeeds when the text already fits, or when a granted growth stays below 2^63. |
| StringBuffer.Strlen | syslog.c:92 | The result is the position of the first NUL in the block. |
| StringBuffer.Append | syslog.c:90-93 | Appends exactly the bytes before the first NUL of the C string. On ENOMEM the buffer is unchanged. |
| StringBuffer.AppendTerminated | syslog.c:90-93 | Appending a C string that holds s followed by its NUL has the same effect as appending s with appendn. |
| StringBuffer.Vsnprintf | syslog.c:99-104 | vsnprintf returns the text length as an int, or -1 when the length is 2^31 or more. It keeps the bytes before the offset and stores nothing when the room is 0. When the text fits it stores the text and a NUL, and otherwise n - 1 characters and a NUL. |
| StringBuffer.VAppendF | syslog.c:95-107 | A text shorter than 2^31 bytes is appended exactly as appendn would, so nothing is ever truncated. For a longer text the sizing pass yields -1, the growth asks for SIZE_MAX more bytes, and the call fails with ENOMEM and leaves the buffer unchanged. |
| StringBuffer.Printed | syslog.c:95-107 | The parts vappendf stores: the text when it is shorter than 2^31 bytes, and nothing otherwise. |
| StringBuffer.VAppendFEach | syslog.c:95-107 | vappendf has the effect of appending the parts Printed keeps, with each error ignored. |
| StringBuffer.Clear | syslog.c:119-122 | The contents become empty while the block and its size are kept. |
| StringBuffer.Init | syslog.c:124-137 | `init(0)` gives the empty buffer. `init(n > 0)` gives `sz = 0` and a block of n + 1 bytes, or ENOMEM with the empty buffer. |
| StringBuffer.ThreadBufferInit | syslog.c:229 | The per-thread buffer gets 1025 bytes, none of them in use. |
| StringBuffer.Destroy | syslog.c:28-36 | The result is the empty buffer: no block, `alloc_sz = 0`, `sz = 0`. |
| StringBuffer.AppendEach | syslog.c:371-388 | A sequence of appends whose errors are ignored never loses bytes already in use and never shrinks the block. |
| StringBuffer.AppendEachJoin | syslog.c:371-388 | Appending the fragments of p and then those of q is the same as appending the fragments of p + q. |
| StringBuffer.AppendEachGranted | syslog.c:75-88 | When realloc grants every request and the total stays below 2^63, the contents are the old contents followed by every fragment in order. |
| StringBuffer.AppendEachInPlace | syslog.c:75-88 | When everything fits in the block already held, all fragments are appended whatever realloc would answer, and the block keeps its size. |
| StringBuffer.AppendEachRefused | syslog.c:75-88 | An empty buffer whose allocations are all refused stays empty. |
| Decimal.Dec | syslog.c:379 | `%d` of a non-negative number is a non-empty run of digits without a leading zero. ParseDec reads it back. |
| Decimal.ParseDec | syslog.c:379 | `%d` of n reads back as n. |
| Decimal.ZeroPad | syslog.c:372-374 | `%0wd` of n is a string of digits of length max(w, number of digits of n) that reads back as n. |
| Decimal.DecLength | syslog.c:372-374 | `%d` of n has at most w digits exactly when n < 10^w. |
| Decimal.ZeroPadWidth | syslog.c:372-374 | Below 10^w, `%0wd` is exactly w characters long. |
| Calendar.MonthWalk | syslog.c:175-183 | The month walk ends in a month m at or after its start, with a day below that month's length, and days-before(m) + day is the day it started with. |
| Calendar.SplitEpoch | syslog.c:161-170 | The results are sec = t%60, min = (t/60)%60 and hour = (t/3600)%24. The day count t/86400 plus the 1600 offset equals qy * 1461 + q. For times up to 2100 the cycle qy lies in 92..124 and q is below 1461. |
| Calendar.CorrectionVanishes | syslog.c:166 | For cycles 92..124 (1968 to 2099) the century correction adds and subtracts the same amount, so it is 0. |
| Calendar.MonthDay | syslog.c:172-198 | Both branches give a month in 0..11 and a day below that month's length. February has 29 days only in the first, leap, year of a cycle. The day within its year is the day of the cycle minus the start of the year in the cycle. |
| Calendar.FromEpoch | syslog.c:149-199 | The converter as written gives the time of day, a month in 0..11, a day below that month's leap-year length, and a year in 1970..2100. |
| Calendar.FromEpochCorrected | syslog.c:149-199 | The same converter, with the year taken from the cycle year that the month walk uses. It has the same field bounds, and the year lies in 1970..2099. |
| Calendar.CorrectedIsCivil | syslog.c:149-199 | The corrected date is the Gregorian date of day t/86400 counted from 1970-01-01. |
| Calendar.CorrectedMatchesCivil | syslog.c:149-199 | A (year, month, day) triple is the corrected converter's result exactly when it is the Gregorian reading of the day (both directions). |
| Calendar.CycleYearSkew | syslog.c:171 | `q / 365` exceeds the true year within the cycle by one on the last day of each year of the cycle, and only there. |
| Calendar.AsWrittenSkew | syslog.c:171 | The converter as written agrees with the corrected one in every field except the year. Its year is one higher exactly on December 31. |
| Calendar.EpochStart | syslog.c:149-199 | t = 0 gives 1970, month 0, day 0, 00:00:00. |
| Calendar.LeapDay2000 | syslog.c:149-199 | t = 951782400 gives 2000, month 1, day 28 (29 February). |
| Calendar.Instant20240102 | syslog.c:149-199 | t = 1704164645 gives 2024, month 0, day 1, 03:04:05. |
| Calendar.December31Of1970 | syslog.c:171 | t = 31449600 (1970-12-31) gives year 1971 as written and 1970 once corrected, with month 11 and day 30 in both. |
| LogLine.LookupFrom | syslog.c:347-352 | The scan of prio_to_string over the table from entry i on, giving "?" past the end. Its result is stated by PrioToString. |
| LogLine.PrioToString | syslog.c:329-353 | A value 0..7 gets its table tag. Any other value gets "?". No tag contains ")". |
| LogLine.PrioTagRoundTrip | syslog.c:334-344 | Each of the eight priorities has its own tag and reading the tag back gives the priority. "?" names no priority. |
| LogLine.RenderedTagKnown | syslog.c:385-386 | The tag in a line is that of `prio & LOG_PRIO_ALL`, which is entry `prio mod 8` of the table, so a line never carries "?". |
| LogLine.Timestamp | syslog.c:372-374 | `%04d-%02d-%02dT%02d:%02d:%02d` of year, mon + 1, mday + 1, hour, min and sec. Its length and inverse are stated by TimestampRoundTrip. |
| LogLine.IdentPart | syslog.c:378-382 | The printed identity starts with the identity, and it is longer than the identity exactly when LOG_PID is set. SplitIdentRoundTrip reads the pid back. |
| LogLine.TagText | syslog.c:385-386 | `(%s) ` of `prio & LOG_PRIO_ALL` is the tag of table entry `prio mod 8` in parentheses, followed by a blank. |
| LogLine.Fragments | syslog.c:371-388 | The eight texts vsyslog_r appends, in order. RenderLineJoin states the line they form. |
| LogLine.RenderLine | syslog.c:371-388 | The eight fragments joined. ParseRenderedLine states that it parses back into its parts. |
| LogLine.TimestampRoundTrip | syslog.c:372-374 | `%04d-%02d-%02dT%02d:%02d:%02d` of year, mon + 1, mday + 1, hour, min, sec is 19 characters and reads back as the same date and time. |
| LogLine.SplitIdentRoundTrip | syslog.c:378-382 | The printed identity splits back into the identity and, exactly when LOG_PID is set, the process id. |
| LogLine.RenderLineJoin | syslog.c:371-388 | A line is timestamp, blank, host, blank, identity (with `[pid]` under LOG_PID), `": "`, `"(TAG) "`, message, and newline, in that order. |
| LogLine.ParseRenderedLine | syslog.c:371-388 | A rendered line parses back into its timestamp, host, identity, process id, tag and message, when the host has no blank and the identity has no `:` or `[`. |
| LogLine.ExampleLine | syslog.c:371-388 | `svc` with LOG_PID, pid 42, on host `h1`, at LOG_WARNING, at 2024-01-02T03:04:05 renders as `2024-01-02T03:04:05 h1 svc[42]: (WARN) retry 3\n`. |
| Syslog.DataInit | syslog.c:275-307 | A key-creation error is returned as is, and a failed strdup gives ENOMEM. Otherwise the logger holds the identity (the program name when none is given), opts and facility, and the mask is LOG_PRIO_ALL. Identity and program name are C strings without NUL, and the stored identity stays one. |
| Syslog.Passes | syslog.c:364-365 | The mask test: a priority is logged when it shares a bit with the mask. Its outcome is stated by OpenedMaskAdmits, EmergNeverPasses and MaskWithoutWarning. |
| Syslog.OpenedMaskAdmits | syslog.c:364-365 | A freshly opened logger logs a priority exactly when its value is not a multiple of 8. |
| Syslog.EmergNeverPasses | syslog.c:364-365 | LOG_EMERG (0) shares no bit with any mask and is never logged. |
| Syslog.MaskWithoutWarning | syslog.c:364-365 | After setlogmask_r clears the LOG_WARNING bit of the default mask, a warning is suppressed and an error is still logged. |
| Syslog.SetLogMask | syslog.c:402-410 | Returns the previous mask and installs the new one. Identity, options and facility do not change. |
| Syslog.SetLogMaskRestores | syslog.c:402-410 | Installing the returned mask again restores the logger exactly and returns the mask that was set in between. |
| Syslog.Log | syslog.c:355-391 | A line is produced exactly when `prio & mask` is non-zero. A suppressed call leaves the buffer untouched. A produced line is the buffer's contents, the buffer stays valid, and its block never shrinks. The timestamp comes from the converter as written. |
| Syslog.LogHeader | syslog.c:371-376 | The timestamp vappendf, the host append and the blank appendn have the effect of appending the header parts in order, each error ignored. |
| Syslog.LogBody | syslog.c:378-388 | The identity vappendf, the `": "` appendn, the tag and message vappendf calls and the newline appendn have the effect of appending the body parts in order, each error ignored. |
| Syslog.LogAppendsFragments | syslog.c:364-388 | A logged call clears the buffer and appends, in order, the timestamp from the converter as written, the host name, the identity, the separator, the tag, the message and the newline. Each append's error is ignored, and a vappendf text of 2^31 bytes or more stores nothing. |
| Syslog.LineText | syslog.c:371-388 | The joined fragments are timestamp, blank, host, blank, identity, `": "`, tag, message and newline. Identity and message appear only when they are shorter than 2^31 bytes. |
| Syslog.LineLength | syslog.c:371-388 | The joined fragments stay below 2^63 bytes. |
| Syslog.LogWritesLine | syslog.c:364-389 | When realloc grants every request, the bytes written are the timestamp as written, host, identity, tag and message. An identity or message of 2^31 bytes or more is missing from the line. |
| Syslog.LogRendersLine | syslog.c:364-389 | When realloc grants every request and identity and message are shorter than 2^31 bytes, the bytes written are exactly the rendered line, stamped by the converter as written. |
| Syslog.LogDropsLongMessage | syslog.c:387 | A message of 2^31 bytes or more is missing from the line. Everything else is written, as if the message were empty. |
| Syslog.LogInPlace | syslog.c:364-389 | When the thread's block is larger than the line, the line is complete whatever realloc would answer, and the block keeps its size. |
| Syslog.LoggedLineParses | syslog.c:364-389 | The written line parses back into the timestamp of the converter as written, the host, the identity, the process id (under LOG_PID), the tag `PRIO_NAMES[prio mod 8]` and the message. |
| Syslog.LoggedYearSkew | syslog.c:370-374 | The date in a written line agrees in every field with the corrected date of its second, except that on December 31 it names the following year. |
| Syslog.TestProgramLine | test.c:6-7 | Opening `*IDENT*` with LOG_PID \| LOG_NOWAIT under LOG_AUTH and logging `test 123` at LOG_WARNING writes `<timestamp> <host> *IDENT*[<pid>]: (WARN) test 123\n`, where the timestamp comes from the converter as written. The call runs on the 1025-byte per-thread block, which the line fits, so the block keeps its size. |

## Left out

- Signal masking (`SIG_CRIT_SECTION`) and concurrency. Each critical section is one atomic step of a pure function.
- The thread-local cache (`TSD_get`, `TSD_destroy`, `pthread_key_create`/`delete`). `Log` takes the thread's buffer as a parameter and returns it. When `str_buf_init(1024)` fails, `TSD_get` returns NULL and `vsyslog_r` dereferences it (syslog.c:229-233, 371). That crash is not modelled: `Log` always receives a valid buffer.
- `get_log_file_fd`, `getenv`, `open`, `abort` and `write`. `Log` returns the bytes instead of writing them.
- `gethostname`, `gettimeofday` and `getpid` are parameters. The host name is at most 64 bytes with no NUL, and the pid is below 2^31.
- printf formatting in general. The message is passed already expanded. Reusing the same `va_list` twice without `va_copy` is undefined behaviour in C and is not modelled. The sizing pass and the write are assumed to see the same text.
- Syslog.Log: requires `%` to be absent from the identity when LOG_PID is off, because the identity is then used as a format string and would be expanded.
- `openlog_r` with its `abort`, `closelog_r`, `syslog_r`, and the process-wide wrappers (`openlog`, `syslog`, `vsyslog`, `closelog`, `setlogmask`). They add only forwarding and process termination.
- `free` and `strdup`. Ownership is not modelled. strdup's success is the `dupOk` parameter and glibc's `__progname` is the `progname` parameter.
- Times before 1970 and from 2100-01-01 on. The converter is modelled for 0 <= t < 4102444800, which also keeps the time_t-to-int narrowing of line 161 harmless. Within this range the century correction is 0, and 2000 is the only century year met.
- Calendar.FromEpoch: bounds the day by the leap-year month length for every year. The exact day is stated through FromEpochCorrected, CorrectedMatchesCivil and AsWrittenSkew.
- StringBuffer.Vsnprintf: for a text of 2^31 bytes or more the model stores nothing, while C leaves the block's contents unspecified. vappendf never reaches that call with such a text, because its growth fails first.
- Strings given to the logger as C strings (identity, program name, host name) are modelled without their terminator and must not contain NUL. The formatted message is the counted output of vsnprintf and may contain NUL.
- realloc leaves the bytes it adds indeterminate; the model fills them with NUL. No rendered byte depends on them. One `allocOk` answer holds for every growth within one `Log` call.

## Notes on the code

- The block is never doubled. The doubling loop of `str_buf_alloc_buffer` only shifts a local counter, and `realloc` asks for exactly `required + 1` bytes. From an empty buffer the loop refuses every request of 2^63 bytes or more, and from a capacity that is not a power of two its counter can wrap to a value that is not 0 and pass, so it is not a complete overflow test.
- No line carries "?". `vsyslog_r` masks the priority with `& 7` before the table lookup, so the lookup always finds one of the eight tags.
- LOG_EMERG is never logged. The default mask is `LOG_PRIO_ALL`, which is 7, and it is ANDed with the priority value itself, so priority 0 never passes any mask.

## Findings

| source | as written | input that shows it | evidently intended | confidence | as-written member | corrected member |
|---|---|---|---|---|---|---|
| syslog.c:171 | the year is `qy * 4 + q / 365 + 1600`, where q counts days within a four-year cycle whose first year has 366 days | t = 31449600 (1970-12-31T00:00:00) gives year 1971; every December 31 gives the following year | the year of the cycle year the month walk at lines 172-198 uses, 1970 here | high, not executed | Calendar.AsWrittenSkew | Calendar.CorrectedMatchesCivil |

The line model (`Log`) follows the code and stamps each line with the
converter as written. `Calendar.December31Of1970` shows the concrete input
under both converters. `Syslog.LoggedYearSkew` states what a written line
carries: the corrected date, with the following year on December 31.
