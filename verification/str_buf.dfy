/** The growable character buffer `str_buf` of syslog.c, as an immutable
    record. Every operation returns an `Outcome`: the C error code together
    with the buffer as the call leaves it, so "fails and leaves the buffer
    untouched" is something a contract can say. */
module StringBuffer {
  import opened CInt

  datatype Errno = OK | ENOMEM

  /** `p` is the whole allocated block (empty for the NULL pointer),
      `allocSz` the size of that block and `sz` the number of bytes in use. */
  datatype StrBuf = StrBuf(p: seq<char>, allocSz: SizeT, sz: SizeT)

  /** C's result convention: an error code and the buffer after the call. */
  datatype Outcome = Outcome(err: Errno, buf: StrBuf)

  /** The buffer `str_buf_init(buf, 0)` produces: no block, nothing in use. */
  const EMPTY: StrBuf := StrBuf([], 0, 0)

  /** What every operation keeps: the block has `allocSz` bytes and, once a
      block exists, there is room after the used bytes for a terminator. */
  predicate Valid(b: StrBuf)
  {
    |b.p| == b.allocSz && b.sz <= b.allocSz && (b.allocSz > 0 ==> b.sz < b.allocSz)
  }

  /** The bytes in use. */
  function Contents(b: StrBuf): seq<char>
    requires b.sz <= |b.p|
  {
    b.p[..b.sz]
  }

  /** `realloc` to a larger block keeps the old bytes. The bytes it adds are
      indeterminate in C; the model fills them with NUL. */
  function Realloc(p: seq<char>, n: nat): (r: seq<char>)
    requires n >= |p|
    ensures |r| == n && r[..|p|] == p
  {
    p + seq(n - |p|, _ => '\0')
  }

  /** The overflow guard of str_buf_alloc_buffer: shift x left until it is
      at least target, failing when the shift yields 0. The ghost k and c
      record x == 2^k * c, which bounds the loop to 64 rounds. */
  function DoublingReaches(x: SizeT, target: SizeT, ghost k: nat, ghost c: int): bool
    requires x > 0 && x == Pow2(k) * c
    decreases 64 - k
  {
    if x >= target then true
    else
      ShiftScales(x, k, c);
      var y := Shl1(x);
      if y == 0 then false
      else DoublingReaches(y, target, k + 1, ShiftedFactor(x, k, c))
  }

  /** The guard as the source starts it, from a non-zero capacity. */
  function DoublingGuard(start: SizeT, target: SizeT): bool
    requires start > 0
  {
    DoublingReaches(start, target, 0, start)
  }

  /** The guard never fires for a target of at most 2^63: every doubling
      below such a target is still representable. */
  lemma {:induction false} DoublingReachesSmallTargets(x: SizeT, target: SizeT, k: nat, c: int)
    requires x > 0 && x == Pow2(k) * c
    ensures target <= SIZE_T_HALF ==> DoublingReaches(x, target, k, c)
    decreases 64 - k
  {
    if target <= SIZE_T_HALF && x < target {
      ShiftScales(x, k, c);
      DoublingReachesSmallTargets(Shl1(x), target, k + 1, ShiftedFactor(x, k, c));
    }
  }

  /** Started from a power of two, the guard only visits powers of two, so
      it fails for every target above 2^63. */
  lemma {:induction false} DoublingFromPowerFails(x: SizeT, k: nat, target: SizeT)
    requires x == Pow2(k) && target > SIZE_T_HALF
    ensures !DoublingReaches(x, target, k, 1)
    decreases 64 - k
  {
    Pow2Values();
    ShiftScales(x, k, 1);
    Pow2Monotone(k, 63);
    if k < 63 {
      Pow2Monotone(k + 1, 63);
      DoublingFromPowerFails(Shl1(x), k + 1, target);
    }
  }

  /** From an empty buffer (start 1) the guard passes exactly for targets of
      at most 2^63, although larger sizes would still be representable. */
  lemma DoublingFromOne(target: SizeT)
    ensures DoublingGuard(1, target) <==> target <= SIZE_T_HALF
  {
    DoublingReachesSmallTargets(1, target, 0, 1);
    if target > SIZE_T_HALF {
      DoublingFromPowerFails(1, 0, target);
    }
  }

  /** The guard does not catch every wrap: from a capacity that is not a
      power of two the counter can wrap to a value that is not 0 and then
      pass. 0xB000_0000_0000_0000 loses its top bit on the first shift
      (0x6000_0000_0000_0000), and the second shift reaches
      0xC000_0000_0000_0000, above the target. */
  lemma DoublingWrapPasses(x: SizeT, target: SizeT)
    requires x == 0xB000_0000_0000_0000 && target == x + 1
    ensures 0 < Shl1(x) < x
    ensures DoublingGuard(x, target)
  {
    var y := Shl1(x);
    assert y == 0x6000_0000_0000_0000;
    ShiftScales(x, 0, x);
    var c := ShiftedFactor(x, 0, x);
    assert Shl1(y) == 0xC000_0000_0000_0000;
    assert DoublingReaches(y, target, 1, c);
  }

  /** Where the doubling guard starts: the capacity, or 1 without a block. */
  function Start(b: StrBuf): (r: SizeT)
    ensures r > 0
  {
    if b.allocSz > 0 then b.allocSz else 1
  }

  /** If some doubling of x reaches the target without leaving the size_t
      range, the guard passes: it never meets a wrapped counter on the way. */
  lemma {:induction false} DoublingWithoutWrap(x: SizeT, target: SizeT, k: nat, c: int, m: nat)
    requires x > 0 && x == Pow2(k) * c
    requires target <= x * Pow2(m) < SIZE_T_LIMIT
    ensures DoublingReaches(x, target, k, c)
    decreases m
  {
    if x < target {
      assert m > 0;
      assert Pow2(m) == 2 * Pow2(m - 1);
      assert x * Pow2(m) == 2 * x * Pow2(m - 1);
      assert Pow2(m - 1) >= 1;
      ShiftScales(x, k, c);
      DoublingWithoutWrap(Shl1(x), target, k + 1, ShiftedFactor(x, k, c), m - 1);
    }
  }

  /** str_buf_alloc_buffer: make room for requiredSz bytes and a terminator.
      The block grows to exactly requiredSz + 1 bytes; the doubling loop only
      guards against overflow. */
  function AllocBuffer(b: StrBuf, requiredSz: SizeT, allocOk: bool): (r: Outcome)
    requires Valid(b)
    ensures Valid(r.buf)
    ensures r.err == ENOMEM ==> r.buf == b
    ensures requiredSz == SIZE_MAX ==> r.err == ENOMEM
    ensures requiredSz < b.allocSz ==> r == Outcome(OK, b)
    ensures r.err == OK ==> r.buf.allocSz > requiredSz && r.buf.allocSz >= b.allocSz
    ensures r.err == OK ==> r.buf.sz == b.sz && r.buf.p[..|b.p|] == b.p
    ensures r.err == OK && requiredSz >= b.allocSz ==> r.buf.allocSz == requiredSz + 1
    ensures requiredSz >= b.allocSz && !allocOk ==> r.err == ENOMEM
    ensures requiredSz < SIZE_T_HALF && allocOk ==> r.err == OK
    ensures b.allocSz <= requiredSz < SIZE_MAX ==>
              (r.err == OK <==> allocOk && DoublingGuard(Start(b), requiredSz + 1))
  {
    var requiredAllocSz := Add(requiredSz, 1);
    if requiredAllocSz < requiredSz then Outcome(ENOMEM, b)
    else if requiredAllocSz > b.allocSz then Enlarge(b, requiredAllocSz, allocOk)
    else Outcome(OK, b)
  }

  /** The enlarging branch of str_buf_alloc_buffer: the doubling guard, then
      realloc to exactly n bytes. */
  function Enlarge(b: StrBuf, n: SizeT, allocOk: bool): (r: Outcome)
    requires Valid(b) && n > b.allocSz
    ensures Valid(r.buf)
    ensures r.err == ENOMEM ==> r.buf == b
    ensures r.err == OK ==> r.buf == StrBuf(Realloc(b.p, n), n, b.sz)
    ensures r.err == OK <==> allocOk && DoublingGuard(Start(b), n)
    ensures n <= SIZE_T_HALF && allocOk ==> r.err == OK
  {
    var start := Start(b);
    DoublingReachesSmallTargets(start, n, 0, start);
    if !DoublingGuard(start, n) then Outcome(ENOMEM, b)
    else if !allocOk then Outcome(ENOMEM, b)
    else Outcome(OK, StrBuf(Realloc(b.p, n), n, b.sz))
  }

  /** An empty buffer refuses every request of 2^63 bytes or more. */
  lemma EmptyBufferRefusesHalfRange(requiredSz: SizeT, allocOk: bool)
    requires requiredSz >= SIZE_T_HALF
    ensures AllocBuffer(EMPTY, requiredSz, allocOk).err == ENOMEM
  {
    if requiredSz < SIZE_MAX {
      DoublingFromOne(requiredSz + 1);
    }
  }

  /** str_buf_grow_buffer: make room for delta more bytes after the used ones. */
  function GrowBuffer(b: StrBuf, delta: SizeT, allocOk: bool): (r: Outcome)
    requires Valid(b)
    ensures Valid(r.buf)
    ensures r.err == ENOMEM ==> r.buf == b
    ensures b.sz + delta >= SIZE_MAX ==> r.err == ENOMEM
    ensures b.sz + delta < b.allocSz ==> r == Outcome(OK, b)
    ensures r.err == OK ==> r.buf.allocSz > b.sz + delta && r.buf.allocSz >= b.allocSz
    ensures r.err == OK ==> r.buf.sz == b.sz && r.buf.p[..|b.p|] == b.p
    ensures r.err == OK && b.sz + delta >= b.allocSz ==> r.buf.allocSz == b.sz + delta + 1
    ensures b.sz + delta >= b.allocSz && !allocOk ==> r.err == ENOMEM
    ensures b.sz + delta < SIZE_T_HALF && allocOk ==> r.err == OK
    ensures b.sz + delta < SIZE_T_LIMIT ==> r == AllocBuffer(b, b.sz + delta, allocOk)
  {
    SumWrapDetected(b.sz, delta);
    var requiredBufSz := Add(b.sz, delta);
    if requiredBufSz < b.sz || requiredBufSz < delta then Outcome(ENOMEM, b)
    else
      assert requiredBufSz == b.sz + delta;
      AllocBuffer(b, requiredBufSz, allocOk)
  }

  /** str_buf_appendn: append all of str and a terminator, or nothing. */
  function AppendN(b: StrBuf, str: seq<char>, allocOk: bool): (r: Outcome)
    requires Valid(b) && |str| < SIZE_T_LIMIT
    ensures Valid(r.buf)
    ensures r.err == ENOMEM ==> r.buf == b
    ensures r.err == OK ==> Contents(r.buf) == Contents(b) + str && r.buf.sz == b.sz + |str|
    ensures r.err == OK ==> r.buf.sz < r.buf.allocSz && r.buf.p[r.buf.sz] == '\0'
    ensures r.buf.allocSz >= b.allocSz
    ensures b.sz + |str| >= SIZE_MAX ==> r.err == ENOMEM
    ensures b.sz + |str| < b.allocSz ==> r.err == OK && r.buf.allocSz == b.allocSz
    ensures b.sz + |str| >= b.allocSz && !allocOk ==> r.err == ENOMEM
    ensures b.sz + |str| < SIZE_T_HALF && allocOk ==> r.err == OK
  {
    var g := GrowBuffer(b, |str|, allocOk);
    if g.err != OK then g
    else
      var nb := g.buf;
      var end := nb.sz + |str|;
      assert nb.p[..nb.sz] == b.p[..b.sz];
      var p := nb.p[..nb.sz] + str + ['\0'] + nb.p[end + 1..];
      assert p[..end] == nb.p[..nb.sz] + str;
      Outcome(OK, StrBuf(p, nb.allocSz, end))
  }

  /** strlen: the position of the first NUL. */
  function Strlen(s: seq<char>): (n: nat)
    requires '\0' in s
    ensures n < |s| && s[n] == '\0' && '\0' !in s[..n]
  {
    if s[0] == '\0' then 0
    else
      assert '\0' in s[1..] by {
        var i :| 0 <= i < |s| && s[i] == '\0';
        assert s[1..][i - 1] == '\0';
      }
      var n := Strlen(s[1..]);
      assert s[..n + 1] == [s[0]] + s[1..][..n];
      n + 1
  }

  /** str_buf_append: append the C string that s holds, up to its NUL. */
  function Append(b: StrBuf, s: seq<char>, allocOk: bool): (r: Outcome)
    requires Valid(b) && '\0' in s && |s| < SIZE_T_LIMIT
    ensures Valid(r.buf)
    ensures r.err == ENOMEM ==> r.buf == b
    ensures r.err == OK ==> Contents(r.buf) == Contents(b) + s[..Strlen(s)]
    ensures r.err == OK ==> '\0' !in Contents(r.buf)[b.sz..]
  {
    var r := AppendN(b, s[..Strlen(s)], allocOk);
    assert r.err == OK ==> Contents(r.buf)[b.sz..] == s[..Strlen(s)];
    r
  }

  /** Appending a C string holding s is appending s itself. */
  lemma AppendTerminated(b: StrBuf, s: seq<char>, allocOk: bool)
    requires Valid(b) && '\0' !in s && |s| + 1 < SIZE_T_LIMIT
    ensures Append(b, s + ['\0'], allocOk) == AppendN(b, s, allocOk)
  {
    var t := s + ['\0'];
    assert t[|s|] == '\0' && t[..|s|] == s;
  }

  /** vsnprintf into the block at offset `at` with room n. It returns the
      length of the text as an int, or -1 (EOVERFLOW) when that length does
      not fit in an int; then the model stores nothing. Otherwise at most
      n - 1 characters of the text and a NUL are stored, and nothing at all
      when n is 0. */
  function Vsnprintf(p: seq<char>, at: nat, n: nat, text: seq<char>): (r: (seq<char>, Int32))
    requires at + n <= |p|
    ensures |r.0| == |p| && r.0[..at] == p[..at]
    ensures |text| < INT_LIMIT ==> r.1 == |text|
    ensures |text| >= INT_LIMIT ==> r.1 == -1 && r.0 == p
    ensures n == 0 ==> r.0 == p
    ensures |text| < n && |text| < INT_LIMIT ==> r.0[at..at + |text| + 1] == text + ['\0']
    ensures 0 < n <= |text| < INT_LIMIT ==> r.0[at..at + n] == text[..n - 1] + ['\0']
  {
    if |text| >= INT_LIMIT then (p, -1)
    else if n == 0 then (p, |text|)
    else
      var w := if |text| < n then |text| else n - 1;
      var q := p[..at] + text[..w] + ['\0'] + p[at + w + 1..];
      assert q[at..at + w + 1] == text[..w] + ['\0'];
      (q, |text|)
  }

  /** str_buf_vappendf, on the text the format expands to: a sizing pass
      into a block of size 0, one growth by its result converted to size_t,
      then vsnprintf into the tail. A text whose length fits in an int is
      appended whole, exactly as str_buf_appendn would. For a longer text
      the sizing pass returns -1, the growth asks for SIZE_MAX more bytes
      and the call fails with the buffer unchanged. */
  function VAppendF(b: StrBuf, text: seq<char>, allocOk: bool): (r: Outcome)
    requires Valid(b)
    ensures Valid(r.buf)
    ensures |text| < INT_LIMIT ==> r == AppendN(b, text, allocOk)
    ensures |text| >= INT_LIMIT ==> r == Outcome(ENOMEM, b)
  {
    var delta := ToSize(Vsnprintf([], 0, 0, text).1);
    var g := GrowBuffer(b, delta, allocOk);
    if g.err != OK then g
    else
      assert |text| < INT_LIMIT;
      Outcome(OK, WriteTail(g.buf, text))
  }

  /** The second vsnprintf of vappendf and its terminator, into a block
      with room for the text: the text lands after the used bytes. */
  function WriteTail(nb: StrBuf, text: seq<char>): (r: StrBuf)
    requires Valid(nb) && |text| < INT_LIMIT && nb.sz + |text| < nb.allocSz
    ensures r == StrBuf(nb.p[..nb.sz] + text + ['\0'] + nb.p[nb.sz + |text| + 1..],
                        nb.allocSz, nb.sz + |text|)
  {
    var (p, n) := Vsnprintf(nb.p, nb.sz, nb.allocSz - nb.sz, text);
    VsnprintfFits(nb.p, nb.sz, nb.allocSz - nb.sz, text);
    StrBuf(p[nb.sz + n := '\0'], nb.allocSz, nb.sz + n)
  }

  /** When the text fits, vsnprintf writes it and its terminator, and
      storing a terminator after it again changes nothing. */
  lemma VsnprintfFits(p: seq<char>, at: nat, n: nat, text: seq<char>)
    requires at + n <= |p| && |text| < n && |text| < INT_LIMIT
    ensures var q := Vsnprintf(p, at, n, text).0;
            q[at + |text| := '\0'] == p[..at] + text + ['\0'] + p[at + |text| + 1..]
  {
  }

  /** The bytes vappendf can append of a text: all of them, or none when
      the length does not fit in vsnprintf's int result. */
  function Kept(text: seq<char>): seq<char>
  {
    if |text| < INT_LIMIT then text else []
  }

  /** What vappendf stores of a text, as a list of parts: the text itself,
      or nothing when its length does not fit in vsnprintf's int result. */
  function Printed(text: seq<char>): (r: seq<seq<char>>)
    ensures AllFit(r) && |r| <= 1
    ensures Concat(r) == Kept(text) && |Concat(r)| < INT_LIMIT
    ensures |text| < INT_LIMIT <==> Concat(r) == text
  {
    if |text| < INT_LIMIT then
      ConcatCons(text, []);
      [text]
    else []
  }

  /** vappendf appends the parts Printed keeps and ignores the rest. */
  lemma VAppendFEach(b: StrBuf, text: seq<char>, allocOk: bool)
    requires Valid(b)
    ensures VAppendF(b, text, allocOk).buf == AppendEach(b, Printed(text), allocOk)
  {
    if |text| < INT_LIMIT {
      AppendEachOne(b, text, allocOk);
    }
  }

  /** str_buf_clear: forget the used bytes, keep the block. */
  function Clear(b: StrBuf): (r: StrBuf)
    requires Valid(b)
    ensures Valid(r) && Contents(r) == []
    ensures r.p == b.p && r.allocSz == b.allocSz
  {
    b.(sz := 0)
  }

  /** str_buf_init: an empty buffer, with a first block of
      initialAllocSz + 1 bytes when a size is given. */
  function Init(initialAllocSz: SizeT, allocOk: bool): (r: Outcome)
    ensures Valid(r.buf) && r.buf.sz == 0
    ensures initialAllocSz == 0 ==> r == Outcome(OK, EMPTY)
    ensures r.err == ENOMEM ==> r.buf == EMPTY
    ensures initialAllocSz > 0 && r.err == OK ==> r.buf.allocSz == initialAllocSz + 1
    ensures initialAllocSz > 0 && !allocOk ==> r.err == ENOMEM
    ensures initialAllocSz < SIZE_T_HALF && allocOk ==> r.err == OK
  {
    if initialAllocSz > 0 then AllocBuffer(EMPTY, initialAllocSz, allocOk)
    else Outcome(OK, EMPTY)
  }

  /** The per-thread line buffer is created with str_buf_init(1024): when the
      allocation succeeds it holds 1025 bytes and nothing is in use. */
  lemma ThreadBufferInit()
    ensures Init(1024, true) == Outcome(OK, StrBuf(Realloc([], 1025), 1025, 0))
  {
  }

  /** The guard depends on the capacity: the 1025-byte per-thread block
      grants a request of 2^63 bytes, because 1025 * 2^53 = 2^63 + 2^53 is
      reached without a wrap, while an empty buffer refuses the same request
      (EmptyBufferRefusesHalfRange). */
  lemma ThreadBufferGrantsHalfRange()
    ensures AllocBuffer(Init(1024, true).buf, SIZE_T_HALF, true).err == OK
    ensures AllocBuffer(EMPTY, SIZE_T_HALF, true).err == ENOMEM
  {
    var b := Init(1024, true).buf;
    ThreadBufferInit();
    Pow2Values();
    Pow2Add(2, 2);
    Pow2Add(4, 4);
    Pow2Add(8, 2);
    Pow2Add(53, 10);
    assert Pow2(53) == 0x20_0000_0000_0000;
    DoublingWithoutWrap(1025, SIZE_T_HALF + 1, 0, 1025, 53);
    EmptyBufferRefusesHalfRange(SIZE_T_HALF, true);
  }

  /** str_buf_destroy: release the block; the result is the empty buffer. */
  function Destroy(b: StrBuf): (r: StrBuf)
    requires Valid(b)
    ensures r == EMPTY
  {
    if b.p != [] then StrBuf([], 0, 0) else b.(sz := 0)
  }

  /** The parts joined end to end. */
  function Concat(parts: seq<seq<char>>): seq<char>
  {
    if parts == [] then [] else parts[0] + Concat(parts[1..])
  }

  lemma ConcatCons(t: seq<char>, rest: seq<seq<char>>)
    ensures Concat([t] + rest) == t + Concat(rest)
  {
    assert ([t] + rest)[1..] == rest;
  }

  /** Joining p + q is joining p, then q. */
  lemma {:induction false} ConcatJoin(p: seq<seq<char>>, q: seq<seq<char>>)
    ensures Concat(p + q) == Concat(p) + Concat(q)
    decreases |p|
  {
    if p == [] {
      assert p + q == q;
    } else {
      assert (p + q)[1..] == p[1..] + q;
      ConcatJoin(p[1..], q);
    }
  }

  predicate AllFit(parts: seq<seq<char>>)
  {
    forall i :: 0 <= i < |parts| ==> |parts[i]| < SIZE_T_LIMIT
  }

  lemma AllFitJoin(p: seq<seq<char>>, q: seq<seq<char>>)
    requires AllFit(p) && AllFit(q)
    ensures AllFit(p + q)
  {
    assert forall i :: 0 <= i < |p + q| ==> (p + q)[i] == if i < |p| then p[i] else q[i - |p|];
  }

  /** Appends every part in turn and ignores each call's result, as the
      logger does: a part whose growth fails is silently dropped. Bytes
      already in use are never lost and the block never shrinks. */
  function AppendEach(b: StrBuf, parts: seq<seq<char>>, allocOk: bool): (r: StrBuf)
    requires Valid(b) && AllFit(parts)
    ensures Valid(r) && r.allocSz >= b.allocSz
    ensures r.sz >= b.sz && Contents(r)[..b.sz] == Contents(b)
    decreases |parts|
  {
    if parts == [] then b
    else AppendEach(AppendN(b, parts[0], allocOk).buf, parts[1..], allocOk)
  }

  /** One step of AppendEach. */
  lemma AppendEachCons(b: StrBuf, t: seq<char>, rest: seq<seq<char>>, allocOk: bool)
    requires Valid(b) && |t| < SIZE_T_LIMIT && AllFit(rest)
    ensures AllFit([t] + rest)
    ensures AppendEach(b, [t] + rest, allocOk) == AppendEach(AppendN(b, t, allocOk).buf, rest, allocOk)
  {
    assert ([t] + rest)[1..] == rest;
  }

  /** AppendEach of a single part is one append. */
  lemma AppendEachOne(b: StrBuf, t: seq<char>, allocOk: bool)
    requires Valid(b) && |t| < SIZE_T_LIMIT
    ensures AllFit([t])
    ensures AppendEach(b, [t], allocOk) == AppendN(b, t, allocOk).buf
  {
    AppendEachCons(b, t, [], allocOk);
    assert [t] + [] == [t];
  }

  /** Appending p and then q is appending p + q. */
  lemma {:induction false} AppendEachJoin(b: StrBuf, p: seq<seq<char>>, q: seq<seq<char>>,
                                          allocOk: bool)
    requires Valid(b) && AllFit(p) && AllFit(q)
    ensures AllFit(p + q)
    ensures AppendEach(b, p + q, allocOk) == AppendEach(AppendEach(b, p, allocOk), q, allocOk)
    decreases |p|
  {
    if p == [] {
      assert p + q == q;
    } else {
      assert (p + q)[1..] == p[1..] + q;
      AppendEachJoin(AppendN(b, p[0], allocOk).buf, p[1..], q, allocOk);
    }
  }

  /** With no block and every allocation refused, nothing is ever stored. */
  lemma {:induction false} AppendEachRefused(parts: seq<seq<char>>)
    requires AllFit(parts)
    ensures AppendEach(EMPTY, parts, false) == EMPTY
    decreases |parts|
  {
    if parts != [] {
      assert AppendN(EMPTY, parts[0], false).buf == EMPTY;
      AppendEachRefused(parts[1..]);
    }
  }

  /** When the allocator grants every request and the total stays below
      2^63, every part is appended: the contents are the old contents
      followed by all parts in order. */
  lemma {:induction false} AppendEachGranted(b: StrBuf, parts: seq<seq<char>>)
    requires Valid(b) && AllFit(parts)
    requires b.sz + |Concat(parts)| < SIZE_T_HALF
    ensures Contents(AppendEach(b, parts, true)) == Contents(b) + Concat(parts)
    decreases |parts|
  {
    if parts != [] {
      var rest := Concat(parts[1..]);
      assert Concat(parts) == parts[0] + rest;
      GrantedStep(b, parts[0], |rest|);
      var r := AppendN(b, parts[0], true).buf;
      assert AppendEach(b, parts, true) == AppendEach(r, parts[1..], true);
      AppendEachGranted(r, parts[1..]);
      JoinAssoc(Contents(b), parts[0], rest);
    }
  }

  lemma JoinAssoc(a: seq<char>, b: seq<char>, c: seq<char>)
    ensures a + (b + c) == a + b + c
  {
  }

  lemma GrantedStep(b: StrBuf, t: seq<char>, restLen: nat)
    requires Valid(b) && b.sz + |t| + restLen < SIZE_T_HALF
    ensures var r := AppendN(b, t, true);
            r.err == OK && r.buf.sz + restLen < SIZE_T_HALF && Contents(r.buf) == Contents(b) + t
  {
  }

  lemma InPlaceStep(b: StrBuf, t: seq<char>, restLen: nat, allocOk: bool)
    requires Valid(b) && b.sz + |t| + restLen < b.allocSz
    ensures var r := AppendN(b, t, allocOk);
            && r.err == OK && r.buf.allocSz == b.allocSz && r.buf.sz + restLen < r.buf.allocSz
            && Contents(r.buf) == Contents(b) + t
  {
  }

  /** When everything fits in the block already held, no allocation is
      requested, whatever the allocator would answer: all parts are appended
      and the block keeps its size. */
  lemma {:induction false} AppendEachInPlace(b: StrBuf, parts: seq<seq<char>>, allocOk: bool)
    requires Valid(b) && AllFit(parts)
    requires b.sz + |Concat(parts)| < b.allocSz
    ensures Contents(AppendEach(b, parts, allocOk)) == Contents(b) + Concat(parts)
    ensures AppendEach(b, parts, allocOk).allocSz == b.allocSz
    decreases |parts|
  {
    if parts != [] {
      var rest := Concat(parts[1..]);
      assert Concat(parts) == parts[0] + rest;
      InPlaceStep(b, parts[0], |rest|, allocOk);
      var r := AppendN(b, parts[0], allocOk).buf;
      assert AppendEach(b, parts, allocOk) == AppendEach(r, parts[1..], allocOk);
      AppendEachInPlace(r, parts[1..], allocOk);
      JoinAssoc(Contents(b), parts[0], rest);
    }
  }
}
