/** Padding of unaligned requests: vectors of buffers, their slices, and the padded vector with its collapsed
    elements. */
module RequestPadding {
  import opened DiskBytes
  import opened Alignment
  import opened Options

  const IOV_MAX := 1024

  /** Memory that vector elements point into: the caller's buffers, the padding buffer and the bounce buffer. */
  datatype Area = Caller(i: nat) | PadBuffer | BounceBuffer

  /** `iov_base` and `iov_len` */
  datatype Elem = Elem(area: Area, start: nat, len: nat)

  type Memory = map<Area, Bytes>

  predicate InMemory(mem: Memory, e: Elem) {
    e.area in mem && e.start + e.len <= |mem[e.area]|
  }

  function Fetch(mem: Memory, e: Elem): (r: Bytes)
    requires InMemory(mem, e)
    ensures |r| == e.len
  {
    mem[e.area][e.start..e.start + e.len]
  }

  ghost predicate Readable(mem: Memory, vec: seq<Elem>) {
    forall e :: e in vec ==> InMemory(mem, e)
  }

  /** The bytes that a vector names, in order. */
  function Gather(mem: Memory, vec: seq<Elem>): Bytes
    requires Readable(mem, vec)
  {
    if vec == [] then [] else Fetch(mem, vec[0]) + Gather(mem, vec[1..])
  }

  lemma {:induction false} GatherConcat(mem: Memory, a: seq<Elem>, b: seq<Elem>)
    requires Readable(mem, a) && Readable(mem, b)
    ensures Readable(mem, a + b) && Gather(mem, a + b) == Gather(mem, a) + Gather(mem, b)
  {
    if a == [] {
      assert a + b == b;
    } else {
      assert (a + b)[1..] == a[1..] + b;
      GatherConcat(mem, a[1..], b);
      assert Fetch(mem, a[0]) + (Gather(mem, a[1..]) + Gather(mem, b))
          == Fetch(mem, a[0]) + Gather(mem, a[1..]) + Gather(mem, b);
    }
  }

  lemma {:induction false} GatherSame(m: Memory, n: Memory, vec: seq<Elem>)
    requires Readable(m, vec) && forall e :: e in vec ==> e.area in n && m[e.area] == n[e.area]
    ensures Readable(n, vec) && Gather(m, vec) == Gather(n, vec)
  {
    if vec != [] {
      GatherSame(m, n, vec[1..]);
    }
  }

  function Size(vec: seq<Elem>): nat {
    if vec == [] then 0 else vec[0].len + Size(vec[1..])
  }

  lemma {:induction false} GatherSize(mem: Memory, vec: seq<Elem>)
    requires Readable(mem, vec)
    ensures |Gather(mem, vec)| == Size(vec)
  {
    if vec != [] {
      GatherSize(mem, vec[1..]);
    }
  }

  // ---- slices of vectors ----

  /** How many elements `iov_skip_offset` skips, and what is left of the offset */
  function Skipped(vec: seq<Elem>, offset: nat): (r: (nat, nat))
    ensures r.0 <= |vec|
  {
    if vec == [] || offset == 0 || offset < vec[0].len then (0, offset)
    else
      var r := Skipped(vec[1..], offset - vec[0].len);
      (r.0 + 1, r.1)
  }

  lemma SkipStep(vec: seq<Elem>, k: nat, rest: nat)
    requires k < |vec| && rest > 0 && rest >= vec[k].len
    ensures var (a, b) := (Skipped(vec[k..], rest), Skipped(vec[k + 1..], rest - vec[k].len)); a == (b.0 + 1, b.1)
  {
    assert vec[k..][1..] == vec[k + 1..];
  }

  /** `iov_skip_offset` from element `from` on */
  method SkipOffset(vec: seq<Elem>, from: nat, offset: nat) returns (k: nat, rest: nat)
    requires from <= |vec| && offset <= Size(vec[from..])
    ensures from <= k <= |vec| && Size(vec[from..k]) + rest == offset
    ensures rest > 0 ==> k < |vec| && rest < vec[k].len
    ensures k > from ==> Size(vec[from..k - 1]) < offset
    ensures Skipped(vec[from..], offset).0 == k - from && Skipped(vec[from..], offset).1 == rest
  {
    k, rest := from, offset;
    assert vec[from..from] == [];
    ghost var all := Skipped(vec[from..], offset);
    while rest > 0 && k < |vec| && rest >= vec[k].len
      invariant from <= k <= |vec| && Size(vec[from..k]) + rest == offset && rest <= Size(vec[k..])
      invariant k > from ==> Size(vec[from..k - 1]) < offset
      invariant var now := Skipped(vec[k..], rest); all == (k - from + now.0, now.1)
      decreases |vec| - k
    {
      SizeStep(vec, from, k);
      SkipStep(vec, k, rest);
      rest := rest - vec[k].len;
      k := k + 1;
    }
    if k == |vec| {
      assert vec[k..] == [];
    }
  }

  lemma {:induction false} SizeConcat(a: seq<Elem>, b: seq<Elem>)
    ensures Size(a + b) == Size(a) + Size(b)
  {
    if a == [] {
      assert a + b == b;
    } else {
      assert (a + b)[1..] == a[1..] + b;
      SizeConcat(a[1..], b);
    }
  }

  lemma SizeStep(vec: seq<Elem>, from: nat, k: nat)
    requires from <= k < |vec|
    ensures Size(vec[from..k + 1]) == Size(vec[from..k]) + vec[k].len
    ensures Size(vec[k..]) == vec[k].len + Size(vec[k + 1..])
  {
    assert vec[from..k + 1] == vec[from..k] + [vec[k]];
    SizeConcat(vec[from..k], [vec[k]]);
    assert Size([vec[k]]) == vec[k].len + Size([vec[k]][1..]);
    assert vec[k..][1..] == vec[k + 1..];
  }

  /** The elements that `qemu_iovec_slice` finds */
  function SliceOf(vec: seq<Elem>, offset: nat, len: nat): seq<Elem> {
    var (k, head) := Skipped(vec, offset);
    var (m, tail) := Skipped(vec[k..], head + len);
    var end := if tail > 0 then k + m + 1 else k + m;
    if end <= |vec| then vec[k..end] else vec[k..]
  }

  lemma SliceIs(vec: seq<Elem>, offset: nat, len: nat, k: nat, head: nat, m: nat, tail: nat, end: nat)
    requires Skipped(vec, offset).0 == k && Skipped(vec, offset).1 == head
    requires Skipped(vec[k..], head + len).0 == m && Skipped(vec[k..], head + len).1 == tail
    requires end == (if tail > 0 then k + m + 1 else k + m) && end <= |vec|
    ensures vec[k..end] == SliceOf(vec, offset, len)
  {
  }

  /** The end of a slice of `n` bytes that begins with element `k` */
  method SliceEnd(vec: seq<Elem>, k: nat, n: nat) returns (end: nat, ghost m: nat, ghost tail: nat)
    requires k <= |vec| && n <= Size(vec[k..])
    ensures k <= end <= |vec| && n <= Size(vec[k..end]) && (end > k ==> n > Size(vec[k..end - 1]))
    ensures Skipped(vec[k..], n).0 == m && Skipped(vec[k..], n).1 == tail
            && end == if tail > 0 then k + m + 1 else k + m
  {
    var rest;
    end, rest := SkipOffset(vec, k, n);
    m, tail := end - k, rest;
    if rest > 0 {
      SizeStep(vec, k, end);
      end := end + 1;
    }
  }

  /** `qemu_iovec_slice`: the elements `k` to `end` that bytes `offset` to `offset + len` lie in; the first `head` bytes
      of the first one come before. */
  method SliceIndices(vec: seq<Elem>, offset: nat, len: nat) returns (k: nat, end: nat, head: nat)
    requires offset + len <= Size(vec)
    ensures k <= end <= |vec| && Size(vec[..k]) + head == offset
    ensures head + len <= Size(vec[k..end])
    ensures head > 0 ==> end > k && head < vec[k].len
    ensures end > k ==> head + len > Size(vec[k..end - 1])
    ensures vec[k..end] == SliceOf(vec, offset, len)
  {
    assert vec[0..] == vec;
    k, head := SkipOffset(vec, 0, offset);
    assert vec[0..k] == vec[..k];
    SizeSplit(vec, k);
    ghost var m, tail;
    end, m, tail := SliceEnd(vec, k, head + len);
    if end == k {
      assert vec[k..end] == [];
    }
    SliceIs(vec, offset, len, k, head, m, tail, end);
  }

  lemma Sections(vec: seq<Elem>, k: nat, end: nat)
    requires k <= end <= |vec|
    ensures vec == vec[..k] + (vec[k..end] + vec[end..])
    ensures end > k ==> vec[k..end] != [] && vec[k..end][0] == vec[k] && vec[k..end][..end - k - 1] == vec[k..end - 1]
  {
  }

  /** The same with the elements before and after. */
  method SliceVec(vec: seq<Elem>, offset: nat, len: nat)
      returns (ghost a: seq<Elem>, b: seq<Elem>, ghost c: seq<Elem>, head: nat)
    requires offset + len <= Size(vec)
    ensures vec == a + (b + c) && Size(a) + head == offset && head + len <= Size(b) && b == SliceOf(vec, offset, len)
    ensures head > 0 ==> b != [] && head < b[0].len
    ensures b != [] ==> head + len > Size(b[..|b| - 1])
  {
    var k, end;
    k, end, head := SliceIndices(vec, offset, len);
    Sections(vec, k, end);
    a, b, c := vec[..k], vec[k..end], vec[end..];
  }

  lemma SizeSplit(vec: seq<Elem>, k: nat)
    requires k <= |vec|
    ensures Size(vec) == Size(vec[..k]) + Size(vec[k..])
  {
    assert vec == vec[..k] + vec[k..];
    SizeConcat(vec[..k], vec[k..]);
  }

  const SIZE_MAX := 0xffff_ffff_ffff_ffff

  /** What `qemu_iovec_concat_iov` appends: up to `n` bytes of the vector, from byte `offset` on. */
  function Cut(vec: seq<Elem>, offset: nat, n: nat): seq<Elem> {
    if vec == [] || n == 0 then []
    else if offset < vec[0].len then
      var len := Min(vec[0].len - offset, n);
      [Elem(vec[0].area, vec[0].start + offset, len)] + Cut(vec[1..], 0, n - len)
    else Cut(vec[1..], offset - vec[0].len, n)
  }

  /** `qemu_iovec_concat_iov` */
  method ConcatIov(dst: seq<Elem>, src: seq<Elem>, offset: nat, n: nat) returns (out: seq<Elem>)
    ensures out == dst + Cut(src, offset, n)
  {
    out := dst;
    var i, done, skip: nat := 0, 0, offset;
    while done < n && i < |src|
      invariant 0 <= i <= |src| && done <= n && out + Cut(src[i..], skip, n - done) == dst + Cut(src, offset, n)
      decreases |src| - i
    {
      assert src[i..][1..] == src[i + 1..];
      if skip < src[i].len {
        var len := Min(src[i].len - skip, n - done);
        out := out + [Elem(src[i].area, src[i].start + skip, len)];
        done := done + len;
        skip := 0;
      } else {
        skip := skip - src[i].len;
      }
      i := i + 1;
    }
  }

  /** Bytes `offset` to `offset + n`, as far as there are any. */
  function Window(s: Bytes, offset: nat, n: nat): Bytes {
    s[Min(offset, |s|)..Min(offset + n, |s|)]
  }

  lemma WindowConcat(a: Bytes, b: Bytes, offset: nat, n: nat)
    ensures Window(a + b, offset, n) ==
              if offset < |a| then var len := Min(|a| - offset, n); a[offset..offset + len] + Window(b, 0, n - len)
              else Window(b, offset - |a|, n)
  {
  }

  lemma FetchPart(mem: Memory, e: Elem, offset: nat, len: nat)
    requires InMemory(mem, e) && offset + len <= e.len
    ensures var part := Elem(e.area, e.start + offset, len);
            InMemory(mem, part) && Fetch(mem, part) == Fetch(mem, e)[offset..offset + len]
  {
    var (m, part) := (mem[e.area], Elem(e.area, e.start + offset, len));
    forall i | 0 <= i < len ensures Fetch(mem, part)[i] == Fetch(mem, e)[offset..offset + len][i] {
      assert Fetch(mem, e)[offset + i] == m[e.start + offset + i];
    }
  }

  lemma GatherCons(mem: Memory, e: Elem, vec: seq<Elem>)
    requires InMemory(mem, e) && Readable(mem, vec)
    ensures Readable(mem, [e] + vec) && Gather(mem, [e] + vec) == Fetch(mem, e) + Gather(mem, vec)
  {
    assert ([e] + vec)[1..] == vec;
  }

  ghost predicate CutOk(mem: Memory, vec: seq<Elem>, offset: nat, n: nat)
    requires Readable(mem, vec)
  {
    Readable(mem, Cut(vec, offset, n)) && Gather(mem, Cut(vec, offset, n)) == Window(Gather(mem, vec), offset, n)
  }

  lemma WindowFirst(x: Bytes, y: Bytes, offset: nat, n: nat, part: Bytes, rest: Bytes)
    requires offset < |x| && part == x[offset..offset + Min(|x| - offset, n)]
    requires rest == Window(y, 0, n - Min(|x| - offset, n))
    ensures part + rest == Window(x + y, offset, n)
  {
    WindowConcat(x, y, offset, n);
  }

  lemma CutFirst(mem: Memory, vec: seq<Elem>, offset: nat, n: nat)
    requires Readable(mem, vec) && vec != [] && n > 0 && offset < vec[0].len
    requires CutOk(mem, vec[1..], 0, n - Min(vec[0].len - offset, n))
    ensures CutOk(mem, vec, offset, n)
  {
    var len := Min(vec[0].len - offset, n);
    FetchPart(mem, vec[0], offset, len);
    var (e, rest) := (Elem(vec[0].area, vec[0].start + offset, len), Cut(vec[1..], 0, n - len));
    GatherCons(mem, e, rest);
    WindowFirst(Fetch(mem, vec[0]), Gather(mem, vec[1..]), offset, n, Fetch(mem, e), Gather(mem, rest));
    assert Cut(vec, offset, n) == [e] + rest;
  }

  lemma {:induction false} CutGather(mem: Memory, vec: seq<Elem>, offset: nat, n: nat)
    requires Readable(mem, vec)
    ensures CutOk(mem, vec, offset, n)
  {
    if vec != [] && n > 0 {
      assert InMemory(mem, vec[0]);
      if offset < vec[0].len {
        CutGather(mem, vec[1..], 0, n - Min(vec[0].len - offset, n));
        CutFirst(mem, vec, offset, n);
      } else {
        CutGather(mem, vec[1..], offset - vec[0].len, n);
        WindowConcat(Fetch(mem, vec[0]), Gather(mem, vec[1..]), offset, n);
      }
    }
  }

  lemma {:induction false} CutSize(vec: seq<Elem>, offset: nat, n: nat)
    ensures |Cut(vec, offset, n)| <= |vec|
    ensures Size(Cut(vec, offset, n)) == Min(offset + n, Size(vec)) - Min(offset, Size(vec))
  {
    if vec != [] && n > 0 {
      if offset < vec[0].len {
        var len := Min(vec[0].len - offset, n);
        CutSize(vec[1..], 0, n - len);
        assert ([Elem(vec[0].area, vec[0].start + offset, len)] + Cut(vec[1..], 0, n - len))[1..]
            == Cut(vec[1..], 0, n - len);
      } else {
        CutSize(vec[1..], offset - vec[0].len, n);
      }
    }
  }

  ghost predicate NoneEmpty(vec: seq<Elem>) {
    forall e :: e in vec ==> e.len > 0
  }

  lemma {:induction false} CutSkips(vec: seq<Elem>, offset: nat, n: nat, e: Elem)
    requires e in vec && e.len == 0
    ensures |Cut(vec, offset, n)| < |vec|
  {
    if n > 0 {
      if offset < vec[0].len {
        CutSkips(vec[1..], 0, n - Min(vec[0].len - offset, n), e);
      } else {
        CutSize(vec[1..], offset - vec[0].len, n);
      }
    }
  }

  lemma {:induction false} CutKeeps(vec: seq<Elem>, offset: nat, n: nat)
    requires NoneEmpty(vec) && vec != [] && n > 0 && offset < vec[0].len && offset + n > Size(vec[..|vec| - 1])
    ensures |Cut(vec, offset, n)| == |vec|
  {
    if |vec| > 1 {
      assert vec[..|vec| - 1][1..] == vec[1..][..|vec| - 2];
      CutKeeps(vec[1..], 0, n - Min(vec[0].len - offset, n));
    }
  }

  /** No element gets lost on the way, unless it is empty. */
  lemma CutAll(vec: seq<Elem>, offset: nat, n: nat)
    requires vec != [] && n > 0 && (offset == 0 || offset < vec[0].len) && offset + n > Size(vec[..|vec| - 1])
    ensures |Cut(vec, offset, n)| == |vec| <==> NoneEmpty(vec)
  {
    if NoneEmpty(vec) {
      CutKeeps(vec, offset, n);
    } else {
      var e :| e in vec && e.len == 0;
      CutSkips(vec, offset, n, e);
    }
  }

  ghost predicate AllCaller(vec: seq<Elem>) {
    forall e :: e in vec ==> e.area.Caller?
  }

  lemma {:induction false} CutCaller(vec: seq<Elem>, offset: nat, n: nat)
    requires AllCaller(vec)
    ensures AllCaller(Cut(vec, offset, n))
  {
    if vec != [] && n > 0 {
      if offset < vec[0].len {
        CutCaller(vec[1..], 0, n - Min(vec[0].len - offset, n));
      } else {
        CutCaller(vec[1..], offset - vec[0].len, n);
      }
    }
  }

  // ---- padding ----

  /** `BdrvRequestPadding`: the buffer itself is `PadBuffer` */
  datatype Pad = Pad(head: nat, tail: nat, bufLen: nat, mergeReads: bool)

  /** `bdrv_init_padding` */
  function InitPadding(offset: nat, bytes: nat, align: nat): Option<Pad>
    requires align > 0
  {
    var head := offset % align;
    var over := (offset + bytes) % align;
    var tail := if over > 0 then align - over else 0;
    if head == 0 && tail == 0 then None
    else
      var sum := head + bytes + tail;
      var bufLen := if sum > align && head > 0 && tail > 0 then 2 * align else align;
      Some(Pad(head, tail, bufLen, sum == bufLen))
  }

  /** What the rest of the code relies on. */
  ghost predicate PadOk(p: Pad, offset: nat, bytes: nat, align: nat) {
    && align > 0 && p.head <= offset && p.head < align && p.tail < align
    && (offset - p.head) % align == 0 && (p.head + bytes + p.tail) % align == 0
    && (p.bufLen == align || p.bufLen == 2 * align) && (p.mergeReads ==> p.head + bytes + p.tail == p.bufLen)
    && (!p.mergeReads ==> p.bufLen < p.head + bytes + p.tail && (p.head > 0 && p.tail > 0 ==> p.bufLen == 2 * align))
  }

  lemma PadSpan(offset: nat, bytes: nat, align: nat, head: nat, tail: nat)
    requires align > 0 && head == offset - Down(offset, align) && tail == Up(offset + bytes, align) - (offset + bytes)
    ensures (offset - head) % align == 0 && (head + bytes + tail) % align == 0 && head < align && tail < align
            && head <= offset
    ensures bytes > 0 ==> head + bytes + tail == align || head + bytes + tail >= 2 * align
  {
    DownIs(offset, align);
    UpIs(offset + bytes, align);
    DownGreatest(offset, 0, align);
    assert head + bytes + tail == Up(offset + bytes, align) - Down(offset, align);
    MultipleDiff(Up(offset + bytes, align), Down(offset, align), align);
    MulMod(1, align);
    MultipleDiff(head + bytes + tail, align, align);
  }

  lemma InitPaddingOk(offset: nat, bytes: nat, align: nat)
    requires align > 0
    ensures match InitPadding(offset, bytes, align)
            case None => offset % align == 0 && bytes % align == 0
            case Some(p) => bytes > 0 ==> PadOk(p, offset, bytes, align)
  {
    UpValue(offset + bytes, align);
    var head := offset % align;
    var over := (offset + bytes) % align;
    var tail := if over > 0 then align - over else 0;
    PadSpan(offset, bytes, align, head, tail);
  }

  function HeadElem(p: Pad): seq<Elem> {
    if p.head > 0 then [Elem(PadBuffer, 0, p.head)] else []
  }

  function TailElem(p: Pad): seq<Elem>
    requires p.tail <= p.bufLen
  {
    if p.tail > 0 then [Elem(PadBuffer, p.bufLen - p.tail, p.tail)] else []
  }

  ghost predicate NoPadBuffer(vec: seq<Elem>) {
    forall e :: e in vec ==> !e.area.PadBuffer?
  }

  lemma SizePrefix(vec: seq<Elem>, a: nat, b: nat)
    requires a <= b <= |vec|
    ensures Size(vec[..a]) <= Size(vec[..b])
  {
    assert vec[..b] == vec[..a] + vec[a..b];
    SizeConcat(vec[..a], vec[a..b]);
  }

  ghost predicate Sliced(iov: seq<Elem>, iovOffset: nat, bytes: nat) {
    && 0 < |iov| <= IOV_MAX && AllCaller(iov) && bytes > 0 && Size(iov) <= SIZE_MAX
    && iovOffset + bytes <= Size(iov) && (iovOffset == 0 || iovOffset < iov[0].len)
       && iovOffset + bytes > Size(iov[..|iov| - 1])
  }

  lemma CollapsedSize(iov: seq<Elem>, count: nat, iovOffset: nat, bytes: nat)
    requires Sliced(iov, iovOffset, bytes) && 0 < count < |iov|
    ensures var pre := Cut(iov[..count], iovOffset, SIZE_MAX);
            Size(pre) == Size(iov[..count]) - iovOffset && Size(pre) < bytes
  {
    CutSize(iov[..count], iovOffset, SIZE_MAX);
    SizePrefix(iov, 1, count);
    assert Size(iov[..1]) == iov[0].len + Size(iov[..1][1..]);
    SizePrefix(iov, count, |iov| - 1);
    SizePrefix(iov, count, |iov|);
    assert iov[..|iov|] == iov;
  }

  lemma CollapsedCount(iov: seq<Elem>, count: nat, iovOffset: nat, bytes: nat)
    requires Sliced(iov, iovOffset, bytes) && 0 < count < |iov|
    ensures var n := bytes - Size(Cut(iov[..count], iovOffset, SIZE_MAX));
            n > 0 && |Cut(iov[count..], 0, n)| <= |iov| - count
                && (|Cut(iov[count..], 0, n)| == |iov| - count <==> NoneEmpty(iov[count..]))
            && AllCaller(Cut(iov[count..], 0, n))
  {
    CollapsedSize(iov, count, iovOffset, bytes);
    var n := bytes - Size(Cut(iov[..count], iovOffset, SIZE_MAX));
    CutSize(iov[count..], 0, n);
    CutCaller(iov[count..], 0, n);
    var last := |iov| - 1;
    assert iov[..last] == iov[..count] + iov[count..last] && iov[count..][..last - count] == iov[count..last];
    SizeConcat(iov[..count], iov[count..last]);
    CutAll(iov[count..], 0, n);
  }

  /** One element for the bounce buffer and then `rest`: the bytes of `pre` and `rest`. */
  lemma Bounced(mem: Memory, pre: seq<Elem>, rest: seq<Elem>)
    requires Readable(mem, pre) && Readable(mem, rest) && AllCaller(rest)
    ensures var mem' := mem[BounceBuffer := Gather(mem, pre)];
            var mid := [Elem(BounceBuffer, 0, Size(pre))] + rest;
            Readable(mem', mid) && Gather(mem', mid) == Gather(mem, pre) + Gather(mem, rest)
  {
    var mem' := mem[BounceBuffer := Gather(mem, pre)];
    GatherSame(mem, mem', rest);
    GatherSize(mem, pre);
    GatherCons(mem', Elem(BounceBuffer, 0, Size(pre)), rest);
  }

  lemma WindowSplit(a: Bytes, b: Bytes, offset: nat, n: nat)
    requires offset <= |a| <= SIZE_MAX && |a| - offset <= n
    ensures Window(a, offset, SIZE_MAX) + Window(b, 0, n - (|a| - offset)) == Window(a + b, offset, n)
  {
  }

  lemma SplitBytes(mem: Memory, a: seq<Elem>, b: seq<Elem>, offset: nat, n: nat)
    requires Readable(mem, a) && Readable(mem, b) && offset <= Size(a) <= SIZE_MAX && Size(a) - offset <= n
    ensures var (pre, rest) := (Cut(a, offset, SIZE_MAX), Cut(b, 0, n - (Size(a) - offset)));
            && Readable(mem, pre) && Readable(mem, rest) && Readable(mem, a + b)
            && Gather(mem, pre) + Gather(mem, rest) == Window(Gather(mem, a + b), offset, n)
  {
    CutGather(mem, a, offset, SIZE_MAX);
    CutGather(mem, b, 0, n - (Size(a) - offset));
    GatherSize(mem, a);
    GatherConcat(mem, a, b);
    WindowSplit(Gather(mem, a), Gather(mem, b), offset, n);
  }

  /** The first `count` elements, then the others: the same bytes. */
  lemma CollapsedBytes(mem: Memory, iov: seq<Elem>, count: nat, iovOffset: nat, bytes: nat, pre: seq<Elem>,
      rest: seq<Elem>)
    requires Sliced(iov, iovOffset, bytes) && Readable(mem, iov) && 0 < count < |iov|
    requires pre == Cut(iov[..count], iovOffset, SIZE_MAX)
    requires Size(pre) < bytes && rest == Cut(iov[count..], 0, bytes - Size(pre))
    ensures Readable(mem, pre) && Readable(mem, rest)
    ensures Gather(mem, pre) + Gather(mem, rest) == Window(Gather(mem, iov), iovOffset, bytes)
  {
    CollapsedSize(iov, count, iovOffset, bytes);
    SizePrefix(iov, count, |iov|);
    assert iov[..|iov|] == iov && iov[..count] + iov[count..] == iov;
    SplitBytes(mem, iov[..count], iov[count..], iovOffset, bytes);
  }

  lemma CutSliced(mem: Memory, iov: seq<Elem>, iovOffset: nat, bytes: nat)
    requires Sliced(iov, iovOffset, bytes) && Readable(mem, iov)
    ensures var mid := Cut(iov, iovOffset, bytes);
            && |mid| <= |iov| && (|mid| == |iov| <==> NoneEmpty(iov)) && NoPadBuffer(mid)
            && Readable(mem, mid) && Gather(mem, mid) == Window(Gather(mem, iov), iovOffset, bytes)
  {
    CutGather(mem, iov, iovOffset, bytes);
    CutSize(iov, iovOffset, bytes);
    CutCaller(iov, iovOffset, bytes);
    CutAll(iov, iovOffset, bytes);
  }

  /** The elements that come instead: one for the first `count`, and the rest. */
  function Collapsed(iov: seq<Elem>, count: nat, pre: seq<Elem>, bytes: nat): seq<Elem>
    requires count <= |iov| && Size(pre) <= bytes
  {
    [Elem(BounceBuffer, 0, Size(pre))] + Cut(iov[count..], 0, bytes - Size(pre))
  }

  lemma CollapsedShape(iov: seq<Elem>, count: nat, iovOffset: nat, bytes: nat, pre: seq<Elem>)
    requires Sliced(iov, iovOffset, bytes) && 0 < count < |iov| && pre == Cut(iov[..count], iovOffset, SIZE_MAX)
    ensures Size(pre) < bytes
    ensures var mid := Collapsed(iov, count, pre, bytes);
            && |mid| <= |iov| - count + 1 && (|mid| == |iov| - count + 1 <==> NoneEmpty(iov[count..]))
            && NoPadBuffer(mid)
  {
    CollapsedCount(iov, count, iovOffset, bytes);
  }

  lemma RestCaller(iov: seq<Elem>, count: nat, n: nat, rest: seq<Elem>)
    requires AllCaller(iov) && count <= |iov| && rest == Cut(iov[count..], 0, n)
    ensures AllCaller(rest)
  {
    CutCaller(iov[count..], 0, n);
  }

  lemma CollapsedOk(mem: Memory, iov: seq<Elem>, count: nat, iovOffset: nat, bytes: nat, pre: seq<Elem>)
    requires Sliced(iov, iovOffset, bytes) && Readable(mem, iov) && 0 < count < |iov|
             && pre == Cut(iov[..count], iovOffset, SIZE_MAX)
    ensures Readable(mem, pre) && Size(pre) < bytes
    ensures var mid := Collapsed(iov, count, pre, bytes);
            var mem' := mem[BounceBuffer := Gather(mem, pre)];
            Readable(mem', mid) && Gather(mem', mid) == Window(Gather(mem, iov), iovOffset, bytes)
  {
    CollapsedSize(iov, count, iovOffset, bytes);
    var rest := Cut(iov[count..], 0, bytes - Size(pre));
    CollapsedBytes(mem, iov, count, iovOffset, bytes, pre, rest);
    RestCaller(iov, count, bytes - Size(pre), rest);
    Bounced(mem, pre, rest);
  }

  method AppendCollapsed(vec: seq<Elem>, iov: seq<Elem>, count: nat, pre: seq<Elem>, bytes: nat)
    returns (vec': seq<Elem>, ghost mid: seq<Elem>)
    requires count <= |iov| && Size(pre) <= bytes
    ensures mid == Collapsed(iov, count, pre, bytes) && vec' == vec + mid
  {
    var e := Elem(BounceBuffer, 0, Size(pre));
    vec' := ConcatIov(vec + [e], iov[count..], 0, bytes - Size(pre));
    Grouped(vec, [e], Cut(iov[count..], 0, bytes - Size(pre)));
    mid := Collapsed(iov, count, pre, bytes);
  }

  /** The first `count` elements go into the bounce buffer, which becomes one element. */
  method AddCollapsed(vec: seq<Elem>, mem: Memory, iov: seq<Elem>, iovOffset: nat, bytes: nat, count: nat)
    returns (vec': seq<Elem>, bounce: Bytes, ghost mid: seq<Elem>)
    requires Readable(mem, iov) && Sliced(iov, iovOffset, bytes) && 0 < count < |iov|
    ensures vec' == vec + mid && NoPadBuffer(mid) && |mid| <= |iov| - count + 1
            && (|mid| == |iov| - count + 1 <==> NoneEmpty(iov[count..]))
    ensures var mem' := mem[BounceBuffer := bounce];
            Readable(mem', mid) && Gather(mem', mid) == Window(Gather(mem, iov), iovOffset, bytes)
  {
    var pre := ConcatIov([], iov[..count], iovOffset, SIZE_MAX);
    Grouped([], [], Cut(iov[..count], iovOffset, SIZE_MAX));
    CollapsedShape(iov, count, iovOffset, bytes, pre);
    CollapsedOk(mem, iov, count, iovOffset, bytes, pre);
    bounce := Gather(mem, pre);
    vec', mid := AppendCollapsed(vec, iov, count, pre, bytes);
  }

  lemma Grouped(a: seq<Elem>, b: seq<Elem>, c: seq<Elem>)
    ensures (a + b) + c == a + (b + c) && [] + c == c
  {
  }

  /** The caller's part of `bdrv_create_padded_qiov`: with `surplus` elements too many, the first `surplus + 1` are
      copied into one. */
  method AddCallers(vec: seq<Elem>, mem: Memory, iov: seq<Elem>, iovOffset: nat, bytes: nat, surplus: nat)
    returns (vec': seq<Elem>, mem': Memory, ghost mid: seq<Elem>)
    requires Readable(mem, iov) && Sliced(iov, iovOffset, bytes) && (surplus > 0 ==> surplus + 1 < |iov|)
    ensures vec' == vec + mid && NoPadBuffer(mid) && |mid| <= |iov| - surplus
    ensures Readable(mem', mid) && Gather(mem', mid) == Window(Gather(mem, iov), iovOffset, bytes)
    ensures forall a :: a in mem && !a.BounceBuffer? ==> a in mem' && mem'[a] == mem[a]
    ensures |mid| == |iov| - surplus <==> NoneEmpty(iov[if surplus > 0 then surplus + 1 else 0..])
  {
    if surplus > 0 {
      var bounce;
      vec', bounce, mid := AddCollapsed(vec, mem, iov, iovOffset, bytes, surplus + 1);
      mem' := mem[BounceBuffer := bounce];
    } else {
      mem', mid := mem, Cut(iov, iovOffset, bytes);
      vec' := ConcatIov(vec, iov, iovOffset, bytes);
      CutSliced(mem, iov, iovOffset, bytes);
      assert iov[0..] == iov;
    }
  }

  /** How many elements the code counts for the padded vector */
  function PaddedCount(p: Pad, iov: seq<Elem>): nat {
    (if p.head > 0 then 1 else 0) + |iov| + if p.tail > 0 then 1 else 0
  }

  /** The caller's elements that stay apart: all, or those behind the collapsed ones */
  function Apart(p: Pad, iov: seq<Elem>): seq<Elem>
    requires |iov| <= IOV_MAX
  {
    var n := PaddedCount(p, iov);
    iov[if n > IOV_MAX then n - IOV_MAX + 1 else 0..]
  }

  /** `bdrv_create_padded_qiov`: puts the padding buffer before and after the caller's bytes, in at most IOV_MAX
      elements. The code asserts that there are exactly as many as it counted, as `counted` tells: this is so if none of
      the caller's that stay apart is empty. */
  method CreatePadded(p: Pad, mem: Memory, iov: seq<Elem>, iovOffset: nat, bytes: nat)
    returns (vec: seq<Elem>, mem': Memory, counted: bool, ghost mid: seq<Elem>)
    requires p.tail <= p.bufLen && Readable(mem, iov) && Sliced(iov, iovOffset, bytes)
    ensures vec == HeadElem(p) + mid + TailElem(p) && NoPadBuffer(mid) && |vec| <= IOV_MAX
    ensures Readable(mem', mid) && Gather(mem', mid) == Window(Gather(mem, iov), iovOffset, bytes)
    ensures forall a :: a in mem && !a.BounceBuffer? ==> a in mem' && mem'[a] == mem[a]
    ensures counted <==> |vec| == Min(PaddedCount(p, iov), IOV_MAX)
    ensures counted <==> NoneEmpty(Apart(p, iov))
  {
    var paddedNiov := PaddedCount(p, iov);
    var surplus := if paddedNiov > IOV_MAX then paddedNiov - IOV_MAX else 0;
    vec, mem', mid := AddCallers(HeadElem(p), mem, iov, iovOffset, bytes, surplus);
    vec := vec + TailElem(p);
    counted := |vec| == Min(paddedNiov, IOV_MAX);
  }

  lemma PadElemBytes(p: Pad, mem: Memory)
    requires PadBuffer in mem && p.head <= |mem[PadBuffer]| == p.bufLen && p.tail <= p.bufLen
    ensures Readable(mem, HeadElem(p)) && Gather(mem, HeadElem(p)) == mem[PadBuffer][..p.head]
    ensures Readable(mem, TailElem(p)) && Gather(mem, TailElem(p)) == mem[PadBuffer][p.bufLen - p.tail..]
  {
    if p.head > 0 {
      assert HeadElem(p)[1..] == [];
    }
    if p.tail > 0 {
      assert TailElem(p)[1..] == [];
    }
  }

  /** The bytes of a padded vector, for whatever the padding buffer holds by then. */
  lemma PaddedBytes(p: Pad, mem: Memory, mid: seq<Elem>, buf: Bytes)
    requires p.head <= |buf| == p.bufLen && p.tail <= p.bufLen && Readable(mem, mid) && NoPadBuffer(mid)
    ensures var (m, vec) := (mem[PadBuffer := buf], HeadElem(p) + mid + TailElem(p));
            Readable(m, vec) && Gather(m, vec) == buf[..p.head] + Gather(mem, mid) + buf[p.bufLen - p.tail..]
  {
    var m := mem[PadBuffer := buf];
    GatherSame(mem, m, mid);
    PadElemBytes(p, m);
    GatherConcat(m, HeadElem(p), mid);
    GatherConcat(m, HeadElem(p) + mid, TailElem(p));
  }
}
