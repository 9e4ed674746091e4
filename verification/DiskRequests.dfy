/** Writes to a disk whose driver wants aligned requests of limited size: padding and read-modify-write of data,
    and the head/middle/tail split of zero writes. */
module DiskRequests {
  import opened DiskBytes
  import opened Alignment
  import opened Options
  import opened RequestPadding

  const INT_MAX := 0x7fff_ffff
  const INT64_MAX := 0x7fff_ffff_ffff_ffff
  const MAX_BOUNCE_BUFFER := 0x100_0000

  const EIO := -5
  const ENOMEM := -12
  const ENOTSUP := -95

  /** `BlockLimits`, where 0 means no limit */
  datatype BlockLimits = BlockLimits(requestAlignment: nat, maxTransfer: nat, pwriteZeroesAlignment: nat,
      maxPwriteZeroes: nat) {
    /** What the block layer asserts of them. */
    predicate Valid() {
      && 0 < requestAlignment <= INT_MAX && (maxTransfer == 0 || requestAlignment <= maxTransfer)
      && var a := Max(pwriteZeroesAlignment, requestAlignment);
         a % requestAlignment == 0 && Down(MinNonZero(maxPwriteZeroes, INT64_MAX), a) >= requestAlignment
    }
  }

  function MinNonZero(a: nat, b: nat): nat {
    if a == 0 || b < a then b else a
  }

  /** What requests are cut by: data in at most `transfer` bytes, zeroes at most `zeroTransfer` bytes and by blocks of
      `zeroAlign`; `bounce` is the size of the zeroes buffer. */
  datatype Limits = Limits(align: nat, transfer: nat, zeroAlign: nat, zeroTransfer: nat, bounce: nat) {
    predicate Valid() {
      && align > 0 && transfer > 0 && transfer % align == 0
      && zeroAlign > 0 && zeroTransfer >= zeroAlign && zeroTransfer % zeroAlign == 0 && bounce > 0
    }
  }

  function LimitsOf(bl: BlockLimits): (r: Limits)
    requires bl.Valid()
    ensures r.Valid()
  {
    var a := Max(bl.pwriteZeroesAlignment, bl.requestAlignment);
    var (m, z) := (MinNonZero(bl.maxTransfer, INT_MAX), MinNonZero(bl.maxPwriteZeroes, INT64_MAX));
    DownIs(m, bl.requestAlignment);
    DownGreatest(m, bl.requestAlignment, bl.requestAlignment);
    DownIs(z, a);
    MultipleDiff(Down(z, a), 0, a);
    Limits(bl.requestAlignment, Down(m, bl.requestAlignment), a, Down(z, a),
        MinNonZero(bl.maxTransfer, MAX_BOUNCE_BUFFER))
  }

  /** The limits are the largest multiples of the alignments that the driver allows, and what a word holds if it allows
      all. */
  lemma LimitsGreatest(bl: BlockLimits)
    requires bl.Valid()
    ensures var lim := LimitsOf(bl);
            && lim.align == bl.requestAlignment && lim.zeroAlign == Max(bl.pwriteZeroesAlignment, bl.requestAlignment)
            && (bl.maxTransfer > 0 ==> lim.transfer <= bl.maxTransfer && lim.bounce <= bl.maxTransfer)
            && lim.transfer <= INT_MAX && lim.bounce <= MAX_BOUNCE_BUFFER
            && (bl.maxTransfer == 0 || bl.maxTransfer > INT_MAX ==> lim.transfer + lim.align > INT_MAX)
            && (0 < bl.maxTransfer <= INT_MAX ==> lim.transfer + lim.align > bl.maxTransfer)
            && (bl.maxPwriteZeroes > 0 ==> lim.zeroTransfer <= bl.maxPwriteZeroes)
            && (0 < bl.maxPwriteZeroes <= INT64_MAX ==> lim.zeroTransfer + lim.zeroAlign > bl.maxPwriteZeroes)
  {
    var a := Max(bl.pwriteZeroesAlignment, bl.requestAlignment);
    DownIs(MinNonZero(bl.maxTransfer, INT_MAX), bl.requestAlignment);
    DownIs(MinNonZero(bl.maxPwriteZeroes, INT64_MAX), a);
  }

  lemma ChunkAligned(offset: nat, bytes: nat, done: nat, num: nat, align: nat)
    requires align > 0 && offset % align == 0 && bytes % align == 0 && done % align == 0 && done + num <= bytes
    requires num % align == 0 || num == bytes - done
    ensures (offset + done) % align == 0 && num % align == 0 && (done + num) % align == 0
            && (bytes - (done + num)) % align == 0
  {
    MultipleDiff(offset, done, align);
    MultipleDiff(bytes, done, align);
    MultipleDiff(done, num, align);
    MultipleDiff(bytes, done + num, align);
  }

  /** The padding of a request of `total` bytes, padding included. */
  ghost predicate Fits(p: Pad, total: nat, align: nat) {
    && 0 < align <= p.bufLen && p.head < align && p.tail < align && align <= total && align % align == 0
       && p.bufLen % align == 0
    && (p.mergeReads ==> total == p.bufLen && p.head + p.tail <= total)
    && (!p.mergeReads && p.head > 0 && p.tail > 0 ==> p.bufLen == 2 * align)
  }

  /** One round of a zero write: `offered` bytes were asked of the driver, which may refuse; `bytes` were dealt with. */
  datatype Chunk = Chunk(offset: nat, bytes: nat, offered: nat, refused: bool)

  /** A zero write that the driver was asked for */
  datatype Offer = Offer(offset: nat, n: nat, refused: bool)

  ghost function Offered(chunks: seq<Chunk>): seq<Offer> {
    seq(|chunks|, i requires 0 <= i < |chunks| => Offer(chunks[i].offset, chunks[i].offered, chunks[i].refused))
  }

  lemma OfferedAdd(chunks: seq<Chunk>, c: Chunk)
    ensures Offered(chunks + [c]) == Offered(chunks) + [Offer(c.offset, c.offered, c.refused)]
  {
  }

  ghost predicate Tiles(chunks: seq<Chunk>, start: nat, end: nat) {
    if chunks == [] then start == end
    else
      var (rest, last) := (chunks[..|chunks| - 1], chunks[|chunks| - 1]);
      last.offset + last.bytes == end && last.bytes > 0 && Tiles(rest, start, last.offset)
  }

  /** What is offered at `offset` of a range up to `end`: whole blocks, as many as there are or as the limit allows;
      or a part of one block, up to its end, to that of the range, or as much as the buffer takes. */
  ghost predicate Shaped(offset: nat, n: nat, end: nat, lim: Limits)
    requires lim.Valid()
  {
    var a := lim.zeroAlign;
    if offset % a == 0 && offset + a <= end then
      n % a == 0 && n <= lim.zeroTransfer && (n == lim.zeroTransfer || end < offset + n + a)
    else
      offset % a + n <= a && n <= lim.zeroTransfer && (offset + n == end || offset % a + n == a || n == lim.bounce)
  }

  ghost predicate NoFallback(chunks: seq<Chunk>) {
    forall c :: c in chunks ==> !c.refused
  }

  /** Until the driver first falls back, what it is offered is in shape. */
  ghost predicate WellShaped(chunks: seq<Chunk>, end: nat, lim: Limits)
    requires lim.Valid()
  {
    chunks == [] || (
      var (rest, last) := (chunks[..|chunks| - 1], chunks[|chunks| - 1]);
      WellShaped(rest, end, lim) && (NoFallback(rest) ==> Shaped(last.offset, last.offered, end, lim)))
  }

  /** How much the loop of `bdrv_co_do_pwrite_zeroes` offers to the driver next. */
  method NextOffer(ghost offset: nat, bytes: nat, head: nat, tail: nat, lim: Limits) returns (num: nat, head': nat)
    requires lim.Valid() && head < lim.zeroAlign && tail < lim.zeroAlign && bytes > 0
    ensures 0 < num <= bytes && head' < lim.zeroAlign
    ensures head == offset % lim.zeroAlign && tail == (offset + bytes) % lim.zeroAlign ==>
              Shaped(offset, num, offset + bytes, lim) && (num < bytes ==> head' == (offset + num) % lim.zeroAlign)
  {
    var a := lim.zeroAlign;
    num, head' := bytes, head;
    if head > 0 {
      num := Min(Min(bytes, lim.bounce), a - head);
      head' := (head + num) % a;
      assert num < lim.zeroTransfer;
      ModShift(offset, num, a);
    } else {
      if tail > 0 && num > a {
        num := num - tail;
      }
      if num > lim.zeroTransfer {
        num := lim.zeroTransfer;
      }
      if head == offset % a && tail == (offset + bytes) % a {
        OfferShaped(offset, bytes, tail, num, lim);
      }
    }
  }

  lemma OfferShaped(offset: nat, bytes: nat, tail: nat, num: nat, lim: Limits)
    requires lim.Valid() && offset % lim.zeroAlign == 0 && tail == (offset + bytes) % lim.zeroAlign && bytes > 0
    requires num == Min(if tail > 0 && bytes > lim.zeroAlign then bytes - tail else bytes, lim.zeroTransfer)
    ensures Shaped(offset, num, offset + bytes, lim) && (num < bytes ==> (offset + num) % lim.zeroAlign == 0)
  {
    var a := lim.zeroAlign;
    if bytes >= a {
      WholeBlocks(offset, bytes, tail, a);
      if bytes == a {
        MultipleDiff(offset, a, a);
      }
      MultipleDiff(offset, num, a);
    }
  }

  lemma WholeBlocks(offset: nat, bytes: nat, tail: nat, a: nat)
    requires a > 0 && offset % a == 0 && tail == (offset + bytes) % a
    ensures (bytes - tail) % a == 0
  {
    DownIs(offset + bytes, a);
    MultipleDiff(Down(offset + bytes, a), offset, a);
  }

  /** One more round. */
  lemma Appended(d: Content, start: nat, offset: nat, chunks: seq<Chunk>, c: Chunk, end: nat, lim: Limits)
    requires lim.Valid() && start <= offset && c.offset == offset && c.bytes > 0 && WellShaped(chunks, end, lim)
    requires NoFallback(chunks) ==> Shaped(c.offset, c.offered, end, lim)
    ensures WellShaped(chunks + [c], end, lim) && (NoFallback(chunks + [c]) <==> NoFallback(chunks) && !c.refused)
    ensures Tiles(chunks, start, offset) ==> Tiles(chunks + [c], start, offset + c.bytes)
    ensures Write(Write(d, start, Zeroes(offset - start)), offset, Zeroes(c.bytes))
            == Write(d, start, Zeroes(offset + c.bytes - start))
  {
    assert (chunks + [c])[..|chunks + [c]| - 1] == chunks;
    WriteWrite(d, start, Zeroes(offset - start), Zeroes(c.bytes));
    ZeroesConcat(offset - start, c.bytes);
  }

  /** A zero write from `start` that has got to `offset`. */
  ghost predicate Progress(d: Content, now: Content, start: nat, total: nat, offset: nat, ret: int, chunks: seq<Chunk>,
      lim: Limits)
    requires lim.Valid() && start <= offset
  {
    && SameOutside(d, now, start, total) && WellShaped(chunks, start + total, lim)
    && (ret == 0 ==> now == Write(d, start, Zeroes(offset - start)) && Tiles(chunks, start, offset))
  }

  /** Until the driver first refuses, `head` is how far into a block the rest begins. */
  ghost predicate HeadOk(head: nat, offset: nat, bytes: nat, chunks: seq<Chunk>, lim: Limits)
    requires lim.Valid()
  {
    head < lim.zeroAlign && (NoFallback(chunks) && bytes > 0 ==> head == offset % lim.zeroAlign)
  }

  lemma RoundDone(d: Content, was: Content, now: Content, start: nat, total: nat, offset: nat, bytes: nat, ret: int,
                  chunks: seq<Chunk>, c: Chunk, lim: Limits)
    requires lim.Valid() && start <= offset && offset + bytes == start + total
    requires c.offset == offset && 0 < c.bytes <= bytes
    requires Progress(d, was, start, total, offset, 0, chunks, lim)
             && (NoFallback(chunks) ==> Shaped(c.offset, c.offered, start + total, lim))
    requires SameOutside(was, now, offset, bytes) && (ret == 0 ==> now == Write(was, offset, Zeroes(c.bytes)))
    ensures Progress(d, now, start, total, offset + c.bytes, ret, chunks + [c], lim)
    ensures NoFallback(chunks + [c]) <==> NoFallback(chunks) && !c.refused
  {
    Wider(was, now, offset, bytes, start, total);
    Appended(d, start, offset, chunks, c, start + total, lim);
  }

  lemma PadFits(p: Pad, offset: nat, bytes: nat, align: nat)
    requires PadOk(p, offset, bytes, align) && bytes > 0
    ensures Fits(p, p.head + bytes + p.tail, align)
  {
    MulMod(1, align);
    MulMod(2, align);
  }

  const BDRV_MAX_LENGTH := 0x7fff_ffff_c000_0000
  const BDRV_REQUEST_MAX_BYTES := 0x7fff_fe00

  /** `bdrv_check_request32` */
  predicate CheckRequest32(offset: int, bytes: int, size: nat, vecOffset: nat) {
    && 0 <= offset && 0 <= bytes && bytes <= BDRV_MAX_LENGTH && offset <= BDRV_MAX_LENGTH - bytes
    && vecOffset <= size && bytes <= size - vecOffset && bytes <= BDRV_REQUEST_MAX_BYTES
  }

  /** A request passes exactly if it ends within the largest possible image and within its vector, and its size fits;
      also an empty one. */
  lemma CheckRequestIff(offset: int, bytes: int, size: nat, vecOffset: nat)
    ensures CheckRequest32(offset, bytes, size, vecOffset) <==>
            && offset >= 0 && bytes >= 0 && offset + bytes <= BDRV_MAX_LENGTH && vecOffset + bytes <= size
            && bytes <= BDRV_REQUEST_MAX_BYTES
  {
  }

  /** The bytes that the caller wants to be written. */
  function Payload(mem: Memory, vec: seq<Elem>, vecOffset: nat, bytes: nat): (r: Bytes)
    requires Readable(mem, vec) && vecOffset + bytes <= Size(vec)
    ensures |r| == bytes
  {
    GatherSize(mem, vec);
    Gather(mem, vec)[vecOffset..vecOffset + bytes]
  }

  lemma AlignedSpan(offset: nat, bytes: nat, align: nat)
    requires align > 0
    ensures 0 <= Down(offset, align) <= offset && offset + bytes <= Up(offset + bytes, align)
    ensures var p := InitPadding(offset, bytes, align);
            if p.None? then Down(offset, align) == offset && Up(offset + bytes, align) == offset + bytes
            else
              offset - p.value.head == Down(offset, align) && offset + bytes + p.value.tail == Up(offset + bytes, align)
  {
    DownIs(offset, align);
    DownGreatest(offset, 0, align);
    UpIs(offset + bytes, align);
    UpValue(offset + bytes, align);
  }

  lemma MiddleWindow(a: Bytes, b: Bytes, c: Bytes, head: nat, n: nat)
    requires head + n <= |b|
    ensures Window(b, head, n) == (a + (b + c))[|a| + head..|a| + head + n]
  {
  }

  lemma PiecesBytes(mem: Memory, a: seq<Elem>, b: seq<Elem>, c: seq<Elem>, head: nat, bytes: nat)
    requires Readable(mem, a) && Readable(mem, b) && Readable(mem, c) && head + bytes <= Size(b)
    ensures Readable(mem, a + (b + c)) && Size(a) + head + bytes <= Size(a + (b + c))
    ensures Window(Gather(mem, b), head, bytes) == Payload(mem, a + (b + c), Size(a) + head, bytes)
  {
    SizeConcat(b, c);
    SizeConcat(a, b + c);
    GatherConcat(mem, b, c);
    GatherConcat(mem, a, b + c);
    GatherSize(mem, a);
    GatherSize(mem, b);
    MiddleWindow(Gather(mem, a), Gather(mem, b), Gather(mem, c), head, bytes);
  }

  lemma SlicedPayload(mem: Memory, a: seq<Elem>, b: seq<Elem>, c: seq<Elem>, vecOffset: nat, bytes: nat, head: nat)
    requires Readable(mem, a + (b + c)) && AllCaller(b) && |b| <= IOV_MAX && Size(a + (b + c)) <= SIZE_MAX && bytes > 0
    requires Size(a) + head == vecOffset && head + bytes <= Size(b)
    requires (head > 0 ==> b != [] && head < b[0].len) && (b != [] ==> head + bytes > Size(b[..|b| - 1]))
    ensures Sliced(b, head, bytes) && Readable(mem, b) && vecOffset + bytes <= Size(a + (b + c))
    ensures Window(Gather(mem, b), head, bytes) == Payload(mem, a + (b + c), vecOffset, bytes)
  {
    SizeConcat(b, c);
    SizeConcat(a, b + c);
    PiecesBytes(mem, a, b, c, head, bytes);
  }

  /** What a write of `bytes` means on a disk that is written up to `end`. */
  function Written(d: Content, offset: nat, bytes: Bytes, end: nat): Content {
    if bytes == [] then d else Write(Extended(d, end), offset, bytes)
  }

  /** Exactly the bytes written differ, except that the disk may get longer by zeroes. */
  lemma WrittenMeans(d: Content, offset: nat, bytes: Bytes, end: nat, i: nat)
    ensures At(Written(d, offset, bytes, end), i) == if offset <= i < offset + |bytes| then bytes[i - offset]
            else At(d, i)
  {
    WriteAt(Extended(d, end), offset, bytes, i);
    ExtendedAt(d, end, i);
  }

  lemma PaddedWriteOk(d: Content, pad: Pad, offset: nat, payload: Bytes, buf: Bytes, padded: Bytes)
    requires pad.head <= offset && pad.head <= |buf| == pad.bufLen && pad.tail <= pad.bufLen && payload != []
    requires buf[..pad.head] == Read(d, offset - pad.head, pad.head)
    requires buf[pad.bufLen - pad.tail..] == Read(d, offset + |payload|, pad.tail)
    requires padded == buf[..pad.head] + payload + buf[pad.bufLen - pad.tail..]
    ensures |padded| == pad.head + |payload| + pad.tail
    ensures Write(d, offset - pad.head, padded) == Written(d, offset, payload, offset + |payload| + pad.tail)
  {
    WriteBack(d, offset, pad.head, payload, pad.tail);
  }

  lemma RestSplit(offset: nat, bytes: nat, tail: nat, m: int, align: nat)
    requires align > 0 && offset % align == 0 && (bytes + tail) % align == 0 && tail < align && m == Down(bytes, align)
    ensures 0 <= m <= bytes && m % align == 0 && (offset + m) % align == 0 && (bytes < align ==> m == 0)
    ensures if tail > 0 then bytes - m == align - tail else bytes == m
    ensures align % align == 0
  {
    DownIs(bytes, align);
    DownGreatest(bytes, 0, align);
    MultipleDiff(offset, m, align);
    MultipleDiff(bytes + tail, m, align);
    MulMod(1, align);
    MulMod(2, align);
    MultipleDiff(2 * align, bytes + tail - m, align);
    MultipleDiff(m, 0, align);
  }

  /** The middle and the last block of a zero write together. */
  lemma TailWritten(d: Content, offset: nat, m: nat, bytes: nat, tail: nat)
    requires m < bytes
    ensures Written(Write(d, offset, Zeroes(m)), offset + m, Zeroes(bytes - m), offset + bytes + tail)
            == Written(d, offset, Zeroes(bytes), offset + bytes + tail)
  {
    var end := offset + bytes + tail;
    ExtendedWrite(d, end, offset, Zeroes(m));
    WriteWrite(Extended(d, end), offset, Zeroes(m), Zeroes(bytes - m));
    ZeroesConcat(m, bytes - m);
  }

  /** A block of bytes to be written. */
  datatype Block = Block(bytes: Bytes)

  /** `n` zeroes from `offset` on, after `a` bytes and before the `b` bytes from `end` on that are there */
  function Around(d: Content, offset: nat, a: nat, n: nat, end: nat, b: nat): Block
    requires a <= offset
  {
    Block(Read(d, offset - a, a) + Zeroes(n) + Read(d, end, b))
  }

  function FirstBlock(d: Content, offset: nat, a: nat, n: nat): Block
    requires a <= offset
  {
    Block(Read(d, offset - a, a) + Zeroes(n))
  }

  function LastBlock(d: Content, n: nat, end: nat, b: nat): Block {
    Block(Zeroes(n) + Read(d, end, b))
  }

  lemma OneSided(d: Content, offset: nat, a: nat, n: nat, end: nat, b: nat)
    requires a <= offset
    ensures FirstBlock(d, offset, a, n) == Around(d, offset, a, n, end, 0)
    ensures LastBlock(d, n, end, b) == Around(d, offset, 0, n, end, b)
  {
    assert Read(d, end, 0) == [] && Read(d, offset, 0) == [];
    assert (Read(d, offset - a, a) + Zeroes(n)) + [] == Read(d, offset - a, a) + Zeroes(n);
    assert [] + Zeroes(n) == Zeroes(n);
  }

  lemma TailRead(d: Content, offset: nat, m: nat, bytes: nat, tail: nat)
    requires m < bytes
    ensures LastBlock(d, bytes - m, offset + bytes, tail)
            == LastBlock(Write(d, offset, Zeroes(m)), bytes - m, offset + bytes, tail)
  {
    ReadAfterWrite(d, offset, Zeroes(m), offset + bytes, tail);
  }

  lemma AroundZeroes(x: Bytes, z: nat, y: Bytes, k: nat)
    requires k <= z
    ensures (x + Zeroes(z) + y)[..|x| + k] == x + Zeroes(k)
    ensures (x + Zeroes(z) + y)[|x| + z - k..] == Zeroes(k) + y
  {
    assert Zeroes(z)[..k] == Zeroes(k) && Zeroes(z)[z - k..] == Zeroes(k);
  }

  /** The buffer of a zero write: `old` bytes at both ends, zeroes between. */
  ghost predicate ZeroesBetween(d: Content, pad: Pad, offset: nat, bytes: nat, buf: Bytes) {
    && pad.head <= offset && pad.head + pad.tail <= pad.bufLen
    && buf == Read(d, offset - pad.head, pad.head) + Zeroes(pad.bufLen - pad.head - pad.tail)
       + Read(d, offset + bytes, pad.tail)
  }

  lemma BetweenEnds(d: Content, pad: Pad, offset: nat, bytes: nat, start: nat, total: nat, buf: Bytes)
    requires start + pad.head == offset && total == pad.head + bytes + pad.tail && |buf| == pad.bufLen
    requires pad.head + pad.tail <= pad.bufLen && buf[..pad.head] == Read(d, start, pad.head)
    requires buf[pad.bufLen - pad.tail..] == Read(d, start + total - pad.tail, pad.tail)
    requires buf[pad.head..pad.bufLen - pad.tail] == Zeroes(pad.bufLen - pad.head - pad.tail)
    ensures ZeroesBetween(d, pad, offset, bytes, buf)
  {
    assert buf == buf[..pad.head] + buf[pad.head..pad.bufLen - pad.tail] + buf[pad.bufLen - pad.tail..];
  }

  lemma HeadOfBuffer(d: Content, pad: Pad, offset: nat, bytes: nat, buf: Bytes, n: nat)
    requires ZeroesBetween(d, pad, offset, bytes, buf) && pad.head + n + pad.tail <= pad.bufLen
    ensures |buf| == pad.bufLen && Block(buf[..pad.head + n]) == FirstBlock(d, offset, pad.head, n)
  {
    AroundZeroes(Read(d, offset - pad.head, pad.head), pad.bufLen - pad.head - pad.tail,
        Read(d, offset + bytes, pad.tail), n);
  }

  lemma TailOfBuffer(d: Content, pad: Pad, offset: nat, bytes: nat, buf: Bytes, k: nat)
    requires ZeroesBetween(d, pad, offset, bytes, buf) && pad.head + k + pad.tail <= pad.bufLen
    ensures |buf| == pad.bufLen && Block(buf[pad.bufLen - (k + pad.tail)..])
            == LastBlock(d, k, offset + bytes, pad.tail)
  {
    AroundZeroes(Read(d, offset - pad.head, pad.head), pad.bufLen - pad.head - pad.tail,
        Read(d, offset + bytes, pad.tail), k);
  }

  lemma HeadSplit(pad: Pad, offset: nat, bytes: nat, align: nat, n: nat)
    requires PadOk(pad, offset, bytes, align) && bytes > 0 && !pad.mergeReads
             && n == if pad.head > 0 then align - pad.head else 0
    ensures align <= pad.bufLen && n < bytes && align % align == 0 && (offset + n) % align == 0
            && (bytes - n + pad.tail) % align == 0
    ensures pad.head > 0 ==> pad.head + n == align && align + pad.tail <= pad.bufLen
    ensures pad.tail > 0 ==> pad.head + align <= pad.bufLen
  {
    MulMod(1, align);
    if pad.head > 0 {
      MultipleDiff(offset - pad.head, align, align);
      MultipleDiff(pad.head + bytes + pad.tail, align, align);
    }
  }

  lemma MergedBuffer(d: Content, pad: Pad, offset: nat, bytes: nat, buf: Bytes, align: nat)
    requires PadOk(pad, offset, bytes, align) && pad.mergeReads && ZeroesBetween(d, pad, offset, bytes, buf)
    ensures Block(buf) == Around(d, offset, pad.head, bytes, offset + bytes, pad.tail)
    ensures |buf| % align == 0 && (offset - pad.head) % align == 0
  {
    assert pad.bufLen - pad.head - pad.tail == bytes && |buf| == pad.head + bytes + pad.tail;
  }

  lemma BlocksReady(d: Content, pad: Pad, offset: nat, bytes: nat, buf: Bytes, align: nat, n: nat)
    requires PadOk(pad, offset, bytes, align) && bytes > 0 && !pad.mergeReads
             && n == if pad.head > 0 then align - pad.head else 0
    requires ZeroesBetween(d, pad, offset, bytes, buf)
    ensures n < bytes && (offset + n) % align == 0 && (bytes - n + pad.tail) % align == 0
            && align <= pad.bufLen == |buf| && align % align == 0
    ensures pad.head > 0 ==> Block(buf[..align]) == FirstBlock(d, offset, pad.head, n)
    ensures pad.tail > 0 ==>
              Block(buf[pad.bufLen - align..])
              == LastBlock(d, align - pad.tail, offset + bytes, pad.tail)
  {
    HeadSplit(pad, offset, bytes, align, n);
    if pad.head > 0 {
      HeadOfBuffer(d, pad, offset, bytes, buf, n);
    }
    if pad.tail > 0 {
      TailOfBuffer(d, pad, offset, bytes, buf, align - pad.tail);
    }
  }

  lemma ReadEnds(d: Content, start: nat, n: nat, head: nat, tail: nat)
    requires head <= n && tail <= n
    ensures Read(d, start, n)[..head] == Read(d, start, head)
            && Read(d, start, n)[n - tail..] == Read(d, start + n - tail, tail)
  {
  }

  lemma MiddleZeroed(buf: Bytes, head: nat, tail: nat)
    requires head + tail <= |buf|
    ensures var n := |buf| - head - tail;
            var r := buf[..head] + Zeroes(n) + buf[|buf| - tail..];
            |r| == |buf| && r[..head] == buf[..head] && r[|buf| - tail..] == buf[|buf| - tail..]
                && r[head..|buf| - tail] == Zeroes(n)
  {
  }

  lemma TailStored(buf: Bytes, head: nat, tail: nat, block: Bytes)
    requires |block| <= |buf| && tail <= |block| && (head == 0 || head + |block| <= |buf|)
    ensures var r := buf[..|buf| - |block|] + block;
            |r| == |buf| && r[..head] == buf[..head] && r[|buf| - tail..] == block[|block| - tail..]
  {
  }

  /** An assertion of `bdrv_create_padded_qiov` on the number of elements fails for this request: it needs padding, and
      it has too many elements, or one of the caller's elements that stay apart is empty. */
  ghost predicate CountFails(offset: int, bytes: int, vec: seq<Elem>, vecOffset: nat, align: nat)
    requires align > 0
  {
    && CheckRequest32(offset, bytes, Size(vec), vecOffset) && bytes > 0
    && match InitPadding(offset, bytes, align)
       case None => false
       case Some(pad) => !CountOk(pad, SliceOf(vec, vecOffset, bytes))
  }

  ghost predicate CountOk(pad: Pad, iov: seq<Elem>) {
    |iov| <= IOV_MAX && NoneEmpty(Apart(pad, iov))
  }

  /** No such request without an empty element and with at most IOV_MAX elements */
  lemma CountHolds(offset: int, bytes: int, vec: seq<Elem>, vecOffset: nat, align: nat)
    requires align > 0 && NoneEmpty(vec) && |vec| <= IOV_MAX
    ensures !CountFails(offset, bytes, vec, vecOffset, align)
  {
    if bytes > 0 {
      assert forall e :: e in SliceOf(vec, vecOffset, bytes) ==> e in vec;
    }
  }

  /** Two bytes in elements of 1, 0 and 1 bytes, at the start of a larger block */
  lemma CountFailsExample(align: nat)
    requires align > 2
    ensures CountFails(0, 2, [Elem(Caller(0), 0, 1), Elem(Caller(1), 0, 0), Elem(Caller(2), 0, 1)], 0, align)
  {
    var (a, b, c) := (Elem(Caller(0), 0, 1), Elem(Caller(1), 0, 0), Elem(Caller(2), 0, 1));
    var vec := [a, b, c];
    assert vec[1..] == [b, c] && [b, c][1..] == [c] && [c][1..] == [];
    assert Size([c]) == 1 && Size([b, c]) == 1 && Size(vec) == 2;
    assert Skipped([c], 1) == (1, 0) && Skipped([b, c], 1) == (2, 0) && Skipped(vec, 2) == (3, 0);
    assert vec[0..] == vec && SliceOf(vec, 0, 2) == vec;
    assert 2 % align == 2 && vec[1].len == 0;
  }

  /** `bdrv_pad_request`: the caller's bytes between two pieces of the padding buffer, which is still to be filled;
      `ok` is what the code asserts of their number. */
  method PadRequest(pad: Pad, bytes: nat, mem: Memory, vec: seq<Elem>, vecOffset: nat)
    returns (padded: seq<Elem>, mem': Memory, ok: bool, ghost mid: seq<Elem>)
    requires AllCaller(vec) && Readable(mem, vec) && Size(vec) <= SIZE_MAX
    requires bytes > 0 && vecOffset + bytes <= Size(vec) && pad.tail <= pad.bufLen
    ensures ok <==> CountOk(pad, SliceOf(vec, vecOffset, bytes))
    ensures ok ==> padded == HeadElem(pad) + mid + TailElem(pad) && NoPadBuffer(mid) && |padded| <= IOV_MAX
    ensures ok ==> Readable(mem', mid) && Gather(mem', mid) == Payload(mem, vec, vecOffset, bytes)
  {
    ghost var a, c;
    var b, head;
    a, b, c, head := SliceVec(vec, vecOffset, bytes);
    if |b| > IOV_MAX {
      return [], mem, false, [];
    }
    SlicedPayload(mem, a, b, c, vecOffset, bytes, head);
    padded, mem', ok, mid := CreatePadded(pad, mem, b, head, bytes);
  }

  /** A call returns 0 exactly if nothing has failed, and otherwise the one error that has been met. */
  ghost predicate Reported(before: seq<int>, after: seq<int>, ret: int) {
    if ret == 0 then after == before else ret < 0 && after == before + [ret]
  }

  /** The same for zero writes: without a fallback, a driver that cannot zero is an error too. */
  ghost predicate ZeroReported(before: seq<int>, after: seq<int>, refused: bool, noFallback: bool, ret: int) {
    if noFallback && refused then ret == ENOTSUP && after == before else Reported(before, after, ret)
  }

  class Disk {
    var data: Content
    const limits: Limits
    ghost var failures: seq<int> // errors of the driver and of the allocator so far
    ghost var refusals: nat      // how often the driver could not zero
    ghost var offers: seq<Offer> // what it was asked to zero so far

    constructor (data: Content, bl: BlockLimits)
      requires bl.Valid()
      ensures this.data == data && limits == LimitsOf(bl) && limits.Valid() && failures == [] && refusals == 0
              && offers == []
    {
      this.data, limits, failures, refusals, offers := data, LimitsOf(bl), [], 0, [];
    }

    /** What the driver does when its answer is `answer`: if it fails, the bytes it was to write can be anything. */
    method Perform(offset: nat, bytes: Bytes, answer: int) returns (ret: int)
      modifies this`data, this`failures
      ensures ret == (if answer >= 0 then 0 else answer) && Reported(old(failures), failures, ret)
      ensures ret == 0 ==> data == Write(old(data), offset, bytes)
      ensures SameOutside(old(data), data, offset, |bytes|)
    {
      if answer >= 0 {
        ret := 0;
        WriteOutside(data, offset, bytes);
        data := Write(data, offset, bytes);
      } else {
        ret, failures := answer, failures + [answer];
        var junk: Bytes := *;
        if |junk| == |bytes| {
          WriteOutside(data, offset, junk);
          data := Write(data, offset, junk);
        }
      }
    }

    /** A driver write with a vector of `segments` elements, which are at most `most` */
    method DriverWrite(offset: nat, bytes: Bytes, segments: nat, ghost most: nat) returns (ret: int)
      requires segments <= most
      modifies this`data, this`failures
      ensures ret == 0 ==> data == Write(old(data), offset, bytes)
      ensures ret <= 0 && SameOutside(old(data), data, offset, |bytes|) && Reported(old(failures), failures, ret)
    {
      var answer: int := *;
      ret := Perform(offset, bytes, answer);
    }

    /** A request as drivers ask for it. */
    ghost predicate Acceptable(offset: nat, n: nat)
      requires limits.Valid()
    {
      offset % limits.align == 0 && n % limits.align == 0 && n <= limits.transfer
    }

    method AcceptableWrite(offset: nat, bytes: Bytes, segments: nat, ghost most: nat) returns (ret: int)
      requires limits.Valid() && Acceptable(offset, |bytes|) && segments <= most
      modifies this`data, this`failures
      ensures ret == 0 ==> data == Write(old(data), offset, bytes)
      ensures ret <= 0 && SameOutside(old(data), data, offset, |bytes|)
      ensures Reported(old(failures), failures, ret)
    {
      ret := DriverWrite(offset, bytes, segments, most);
    }

    method AcceptableRead(offset: nat, n: nat) returns (r: Bytes)
      requires limits.Valid() && Acceptable(offset, n)
      ensures r == Read(data, offset, n)
    {
      r := Read(data, offset, n);
    }

    /** One round of that loop */
    method WriteChunk(ghost d: Content, offset: nat, payload: Bytes, done: nat, num: nat, segments: nat,
        ghost most: nat) returns (ret: int)
      requires limits.Valid() && done + num <= |payload| && num <= limits.transfer && segments <= most
      requires (offset + done) % limits.align == 0 && num % limits.align == 0
      requires data == Write(d, offset, payload[..done]) && SameOutside(d, data, offset, |payload|)
      modifies this`data, this`failures
      ensures ret <= 0 && SameOutside(d, data, offset, |payload|)
      ensures ret == 0 ==> data == Write(d, offset, payload[..done + num])
      ensures Reported(old(failures), failures, ret)
    {
      WriteWrite(d, offset, payload[..done], payload[done..done + num]);
      assert payload[..done] + payload[done..done + num] == payload[..done + num];
      ret := AcceptableWrite(offset + done, payload[done..done + num], segments, most);
      Wider(old(data), data, offset + done, num, offset, |payload|);
    }

    /** `bdrv_aligned_pwritev` for plain data, of which `payload` are the bytes that its vector names */
    method AlignedWrite(offset: nat, payload: Bytes, segments: nat, ghost most: nat) returns (ret: int)
      requires limits.Valid() && offset % limits.align == 0 && |payload| % limits.align == 0 && segments <= most
      modifies this`data, this`failures
      ensures ret <= 0 && SameOutside(old(data), data, offset, |payload|)
      ensures ret == 0 ==> data == Write(old(data), offset, payload)
      ensures Reported(old(failures), failures, ret)
    {
      if |payload| <= limits.transfer {
        ret := AcceptableWrite(offset, payload, segments, most);
        return;
      }
      var done := 0;
      ret := 0;
      ghost var d := data;
      while done < |payload|
        invariant 0 <= done <= |payload| && ret == 0 && done % limits.align == 0
        invariant data == Write(d, offset, payload[..done])
        invariant SameOutside(d, data, offset, |payload|) && failures == old(failures)
      {
        var num := Min(|payload| - done, limits.transfer);
        ChunkAligned(offset, |payload|, done, num, limits.align);
        ret := WriteChunk(d, offset, payload, done, num, segments, most);
        if ret < 0 {
          break;
        }
        done := done + num;
      }
      assert payload[..|payload|] == payload;
    }

    /** `bdrv_aligned_preadv`, without copy-on-read: past the end, rounded up, there is nothing to ask the driver
        for. */
    method AlignedRead(offset: nat, bytes: nat) returns (buf: Bytes)
      requires limits.Valid() && offset % limits.align == 0 && bytes % limits.align == 0
      ensures buf == Read(data, offset, bytes)
    {
      var maxBytes := Up(Max(|data.bytes|, offset) - offset, limits.align);
      UpIs(Max(|data.bytes|, offset) - offset, limits.align);
      if bytes <= maxBytes && bytes <= limits.transfer {
        buf := AcceptableRead(offset, bytes);
        return;
      }
      var remaining := bytes;
      buf := [];
      assert buf == Read(data, offset, 0);
      while remaining > 0
        invariant 0 <= remaining <= bytes && maxBytes >= 0 && remaining % limits.align == 0
                  && maxBytes % limits.align == 0
        invariant buf == Read(data, offset, bytes - remaining)
                  && |data.bytes| <= offset + (bytes - remaining) + maxBytes
      {
        var num;
        var done := bytes - remaining;
        if maxBytes > 0 {
          num := Min(remaining, Min(maxBytes, limits.transfer));
          MultipleDiff(bytes, remaining, limits.align);
          ChunkAligned(offset, bytes, done, num, limits.align);
          MultipleDiff(maxBytes, num, limits.align);
          var part := AcceptableRead(offset + done, num);
          buf := buf + part;
          maxBytes := maxBytes - num;
        } else {
          num := remaining;
          buf := buf + Zeroes(num);
          ReadPastEnd(data, offset + done, num);
        }
        ReadRead(data, offset, done, num);
        remaining := remaining - num;
      }
    }

    /** `bdrv_padding_rmw_read` into a buffer of `pad.bufLen` bytes; the request guards `total` bytes from `start`
        on. */
    method RmwRead(pad: Pad, start: nat, total: nat, zeroMiddle: bool) returns (buf: Bytes)
      requires limits.Valid() && start % limits.align == 0 && total % limits.align == 0
               && Fits(pad, total, limits.align)
      ensures |buf| == pad.bufLen
      ensures buf[..pad.head] == Read(data, start, pad.head)
      ensures buf[pad.bufLen - pad.tail..] == Read(data, start + total - pad.tail, pad.tail)
      ensures zeroMiddle ==> buf[pad.head..pad.bufLen - pad.tail] == Zeroes(pad.bufLen - pad.head - pad.tail)
    {
      if pad.mergeReads {
        buf := AlignedRead(start, pad.bufLen);
        ReadEnds(data, start, pad.bufLen, pad.head, pad.tail);
      } else {
        buf := ReadApart(pad, start, total);
      }
      if zeroMiddle {
        MiddleZeroed(buf, pad.head, pad.tail);
        buf := buf[..pad.head] + Zeroes(pad.bufLen - pad.head - pad.tail) + buf[pad.bufLen - pad.tail..];
      }
    }

    /** The first and the last block of the request, each if it needs padding */
    method ReadApart(pad: Pad, start: nat, total: nat) returns (buf: Bytes)
      requires limits.Valid() && start % limits.align == 0 && total % limits.align == 0
               && Fits(pad, total, limits.align) && !pad.mergeReads
      ensures |buf| == pad.bufLen
      ensures buf[..pad.head] == Read(data, start, pad.head)
      ensures buf[pad.bufLen - pad.tail..] == Read(data, start + total - pad.tail, pad.tail)
    {
      var align := limits.align;
      buf := Zeroes(pad.bufLen);
      if pad.head > 0 {
        var block := AlignedRead(start, align);
        ReadEnds(data, start, align, pad.head, 0);
        buf := block + buf[align..];
      }
      assert buf[..pad.head] == Read(data, start, pad.head);
      if pad.tail > 0 {
        MultipleDiff(start, total, align);
        MultipleDiff(start + total, align, align);
        var block := AlignedRead(start + total - align, align);
        ReadEnds(data, start + total - align, align, 0, pad.tail);
        TailStored(buf, pad.head, pad.tail, block);
        buf := buf[..pad.bufLen - align] + block;
      }
    }

    /** `bdrv_co_pwritev_part` for data: exactly the requested bytes change. There is no result if an assertion fails,
        and the driver is not reached then. */
    method Pwritev(offset: int, bytes: int, mem: Memory, vec: seq<Elem>, vecOffset: nat) returns (ret: Option<int>)
      requires limits.Valid() && AllCaller(vec) && Readable(mem, vec) && Size(vec) <= SIZE_MAX
      modifies this`data, this`failures
      ensures ret.None? <==> CountFails(offset, bytes, vec, vecOffset, limits.align)
      ensures ret.None? ==> data == old(data) && failures == old(failures)
      ensures ret.Some? ==> ret.value <= 0
      ensures !CheckRequest32(offset, bytes, Size(vec), vecOffset) ==>
                ret == Some(EIO) && data == old(data) && failures == old(failures)
      ensures CheckRequest32(offset, bytes, Size(vec), vecOffset) && ret.Some? ==>
                Reported(old(failures), failures, ret.value)
      ensures CheckRequest32(offset, bytes, Size(vec), vecOffset) ==>
                var (lo, hi) := (Down(offset, limits.align), Up(offset + bytes, limits.align));
                && 0 <= lo <= offset && offset + bytes <= hi && SameOutside(old(data), data, lo, hi - lo)
                && (ret == Some(0) ==> data == Written(old(data), offset, Payload(mem, vec, vecOffset, bytes), hi))
    {
      if !CheckRequest32(offset, bytes, Size(vec), vecOffset) {
        return Some(EIO);
      }
      AlignedSpan(offset, bytes, limits.align);
      if bytes == 0 && offset % limits.align != 0 {
        return Some(0);
      }
      InitPaddingOk(offset, bytes, limits.align);
      match InitPadding(offset, bytes, limits.align) {
        case None =>
          var r := WriteUnpadded(offset, bytes, mem, vec, vecOffset);
          ret := Some(r);
        case Some(pad) =>
          ret := WritePadded(pad, offset, bytes, mem, vec, vecOffset);
      }
    }

    method WriteUnpadded(offset: nat, bytes: nat, mem: Memory, vec: seq<Elem>, vecOffset: nat) returns (ret: int)
      requires limits.Valid() && Readable(mem, vec) && vecOffset + bytes <= Size(vec)
      requires offset % limits.align == 0 && bytes % limits.align == 0
      modifies this`data, this`failures
      ensures ret <= 0 && SameOutside(old(data), data, offset, bytes)
      ensures ret == 0 ==> data == Written(old(data), offset, Payload(mem, vec, vecOffset, bytes), offset + bytes)
      ensures Reported(old(failures), failures, ret)
    {
      ExtendedWrite(data, offset + bytes, offset, Payload(mem, vec, vecOffset, bytes));
      ret := AlignedWrite(offset, Payload(mem, vec, vecOffset, bytes), |vec|, |vec|);
    }

    method WritePadded(pad: Pad, offset: nat, bytes: nat, mem: Memory, vec: seq<Elem>, vecOffset: nat)
        returns (ret: Option<int>)
      requires limits.Valid() && AllCaller(vec) && Readable(mem, vec) && Size(vec) <= SIZE_MAX
      requires bytes > 0 && vecOffset + bytes <= Size(vec) && PadOk(pad, offset, bytes, limits.align)
      modifies this`data, this`failures
      ensures ret.None? <==> !CountOk(pad, SliceOf(vec, vecOffset, bytes))
      ensures ret.None? ==> data == old(data) && failures == old(failures)
      ensures ret.Some? ==> ret.value <= 0 && Reported(old(failures), failures, ret.value)
      ensures SameOutside(old(data), data, offset - pad.head, pad.head + bytes + pad.tail)
      ensures ret == Some(0) ==>
                data == Written(old(data), offset, Payload(mem, vec, vecOffset, bytes), offset + bytes + pad.tail)
    {
      var padded, mem', ok, mid := PadRequest(pad, bytes, mem, vec, vecOffset);
      if !ok {
        return None;
      }
      var r := PaddedWrite(pad, offset, mem', padded, mid, bytes);
      ret := Some(r);
    }

    /** Reads what the padding will write back; the padded vector then names `all` these bytes. */
    method FillPadding(pad: Pad, offset: nat, mem: Memory, padded: seq<Elem>, ghost mid: seq<Elem>, bytes: nat)
        returns (all: Bytes)
      requires limits.Valid() && PadOk(pad, offset, bytes, limits.align) && bytes > 0
      requires padded == HeadElem(pad) + mid + TailElem(pad) && NoPadBuffer(mid) && Readable(mem, mid)
               && |Gather(mem, mid)| == bytes
      ensures |all| == pad.head + bytes + pad.tail
      ensures Write(data, offset - pad.head, all) == Written(data, offset, Gather(mem, mid), offset + bytes + pad.tail)
    {
      PadFits(pad, offset, bytes, limits.align);
      var buf := RmwRead(pad, offset - pad.head, pad.head + bytes + pad.tail, false);
      PaddedBytes(pad, mem, mid, buf);
      all := Gather(mem[PadBuffer := buf], padded);
      PaddedWriteOk(data, pad, offset, Gather(mem, mid), buf, all);
    }

    method PaddedWrite(pad: Pad, offset: nat, mem: Memory, padded: seq<Elem>, ghost mid: seq<Elem>, bytes: nat)
        returns (ret: int)
      requires limits.Valid() && PadOk(pad, offset, bytes, limits.align) && bytes > 0 && |padded| <= IOV_MAX
      requires padded == HeadElem(pad) + mid + TailElem(pad) && NoPadBuffer(mid) && Readable(mem, mid)
               && |Gather(mem, mid)| == bytes
      modifies this`data, this`failures
      ensures ret <= 0 && SameOutside(old(data), data, offset - pad.head, pad.head + bytes + pad.tail)
      ensures ret == 0 ==> data == Written(old(data), offset, Gather(mem, mid), offset + bytes + pad.tail)
      ensures Reported(old(failures), failures, ret)
    {
      var all := FillPadding(pad, offset, mem, padded, mid, bytes);
      ret := AlignedWrite(offset - pad.head, all, |padded|, IOV_MAX);
    }

    /** The driver's `bdrv_co_pwrite_zeroes`, if it has one */
    method DriverZeroes(offset: nat, n: nat) returns (ret: int)
      modifies this`data, this`failures, this`refusals, this`offers
      ensures ret <= 0 && SameOutside(old(data), data, offset, n)
      ensures ret == 0 ==> data == Write(old(data), offset, Zeroes(n))
      ensures if ret == ENOTSUP then data == old(data) && failures == old(failures) && refusals == old(refusals) + 1
              else Reported(old(failures), failures, ret) && refusals == old(refusals)
      ensures offers == old(offers) + [Offer(offset, n, ret == ENOTSUP)]
    {
      var answer: int := *;
      offers := offers + [Offer(offset, n, answer == ENOTSUP)];
      if answer == ENOTSUP {
        refusals := refusals + 1;
        return ENOTSUP;
      }
      ret := Perform(offset, Zeroes(n), answer);
    }

    /** `qemu_try_blockalign0` */
    method Allocate() returns (ok: bool)
      modifies this`failures
      ensures failures == if ok then old(failures) else old(failures) + [ENOMEM]
    {
      ok := *;
      if !ok {
        failures := failures + [ENOMEM];
      }
    }

    /** One round of the loop of `bdrv_co_do_pwrite_zeroes`: the driver zeroes `num` bytes, or a buffer of zeroes is
        written, which may be shorter. `buf` is the size of that buffer, 0 for none. */
    method ZeroChunk(offset: nat, num: nat, noFallback: bool, buf: nat)
        returns (ret: int, done: nat, refused: bool, buf': nat)
      requires limits.Valid() && num > 0 && (buf == 0 || buf == limits.bounce)
      modifies this`data, this`failures, this`refusals, this`offers
      ensures ret <= 0 && 0 < done <= num && (buf' == 0 || buf' == limits.bounce)
      ensures done == if refused && !noFallback then Min(num, limits.bounce) else num
      ensures (refused <==> refusals > old(refusals)) && offers == old(offers) + [Offer(offset, num, refused)]
      ensures SameOutside(old(data), data, offset, num)
      ensures ret == 0 ==> data == Write(old(data), offset, Zeroes(done))
      ensures ZeroReported(old(failures), failures, refusals > old(refusals), noFallback, ret)
      ensures refusals >= old(refusals)
    {
      ret := DriverZeroes(offset, num);
      done, refused, buf' := num, ret == ENOTSUP, buf;
      if refused && !noFallback {
        done := Min(num, limits.bounce);
        ghost var was := data;
        if buf' == 0 {
          var gotBuffer := Allocate();
          if !gotBuffer {
            return ENOMEM, done, refused, buf';
          }
          buf' := done;
        }
        assert done <= buf';
        ret := DriverWrite(offset, Zeroes(done), 1, 1);
        Wider(was, data, offset, done, offset, num);
        if done < limits.bounce {
          buf' := 0;
        }
      }
    }

    method ZeroRound(offset: nat, bytes: nat, head: nat, tail: nat, noFallback: bool, buf: nat)
      returns (ret: int, done: nat, head': nat, buf': nat, ghost c: Chunk)
      requires limits.Valid() && bytes > 0 && head < limits.zeroAlign && tail < limits.zeroAlign
               && (buf == 0 || buf == limits.bounce)
      modifies this`data, this`failures, this`refusals, this`offers
      ensures ret <= 0 && 0 < done <= bytes && head' < limits.zeroAlign && (buf' == 0 || buf' == limits.bounce)
      ensures SameOutside(old(data), data, offset, bytes)
              && (ret == 0 ==> data == Write(old(data), offset, Zeroes(done)))
      ensures c.offset == offset && c.bytes == done && offers == old(offers) + [Offer(offset, c.offered, c.refused)]
      ensures head == offset % limits.zeroAlign && tail == (offset + bytes) % limits.zeroAlign ==>
                && Shaped(offset, c.offered, offset + bytes, limits)
                && (!c.refused && done < bytes ==> head' == (offset + done) % limits.zeroAlign)
      ensures ZeroReported(old(failures), failures, refusals > old(refusals), noFallback, ret)
      ensures refusals >= old(refusals)
    {
      var num, refused;
      ghost var was := data;
      num, head' := NextOffer(offset, bytes, head, tail, limits);
      ret, done, refused, buf' := ZeroChunk(offset, num, noFallback, buf);
      Wider(was, data, offset, num, offset, bytes);
      c := Chunk(offset, done, num, refused);
    }

    /** That round as a step of the whole zero write */
    method ZeroStep(ghost d: Content, ghost start: nat, ghost total: nat, offset: nat, bytes: nat, head: nat, tail: nat,
        noFallback: bool, buf: nat, ghost chunks: seq<Chunk>, ghost was: seq<Offer>)
      returns (ret: int, done: nat, head': nat, buf': nat, ghost chunks': seq<Chunk>)
      requires limits.Valid() && bytes > 0 && start <= offset && offset + bytes == start + total
      requires tail == (start + total) % limits.zeroAlign && (buf == 0 || buf == limits.bounce)
      requires Progress(d, data, start, total, offset, 0, chunks, limits)
      requires HeadOk(head, offset, bytes, chunks, limits) && offers == was + Offered(chunks)
      modifies this`data, this`failures, this`refusals, this`offers
      ensures ret <= 0 && 0 < done <= bytes && (buf' == 0 || buf' == limits.bounce)
      ensures Progress(d, data, start, total, offset + done, ret, chunks', limits)
      ensures HeadOk(head', offset + done, bytes - done, chunks', limits) && offers == was + Offered(chunks')
      ensures ZeroReported(old(failures), failures, refusals > old(refusals), noFallback, ret)
      ensures refusals >= old(refusals)
    {
      ghost var c;
      ret, done, head', buf', c := ZeroRound(offset, bytes, head, tail, noFallback, buf);
      RoundDone(d, old(data), data, start, total, offset, bytes, ret, chunks, c, limits);
      OfferedAdd(chunks, c);
      chunks' := chunks + [c];
    }

    /** `bdrv_co_do_pwrite_zeroes`. The chunks that the driver is offered tile what has been dealt with, which is all of
        it on success. */
    method DoPwriteZeroes(start: nat, total: nat, noFallback: bool) returns (ret: int, ghost chunks: seq<Chunk>)
      requires limits.Valid()
      modifies this`data, this`failures, this`refusals, this`offers
      ensures ret <= 0 && SameOutside(old(data), data, start, total)
      ensures ret == 0 ==> data == Write(old(data), start, Zeroes(total)) && Tiles(chunks, start, start + total)
      ensures WellShaped(chunks, start + total, limits) && offers == old(offers) + Offered(chunks)
      ensures ZeroReported(old(failures), failures, refusals > old(refusals), noFallback, ret)
      ensures refusals >= old(refusals)
    {
      var offset, bytes, buf := start, total, 0;
      var head: nat, tail: nat := start % limits.zeroAlign, (start + total) % limits.zeroAlign;
      ret, chunks := 0, [];
      ghost var d := data;
      while bytes > 0 && ret == 0
        invariant ret <= 0 && 0 <= bytes && start <= offset && offset + bytes == start + total
                  && (buf == 0 || buf == limits.bounce)
        invariant Progress(d, data, start, total, offset, ret, chunks, limits)
        invariant refusals >= old(refusals) && offers == old(offers) + Offered(chunks)
        invariant ZeroReported(old(failures), failures, refusals > old(refusals), noFallback, ret)
        invariant HeadOk(head, offset, bytes, chunks, limits)
        decreases bytes
      {
        var done;
        ret, done, head, buf, chunks :=
          ZeroStep(d, start, total, offset, bytes, head, tail, noFallback, buf, chunks, old(offers));
        offset := offset + done;
        bytes := bytes - done;
      }
    }

    /** A block that keeps `a` bytes before `offset` and `b` bytes from `end` on, with zeroes between */
    method ZeroBlock(offset: nat, a: nat, n: nat, end: nat, b: nat, block: Block) returns (ret: int)
      requires limits.Valid() && n > 0 && end == offset + n && a <= offset && (offset - a) % limits.align == 0
               && |block.bytes| % limits.align == 0
      requires block == Around(data, offset, a, n, end, b)
      modifies this`data, this`failures
      ensures ret <= 0 && SameOutside(old(data), data, offset - a, a + n + b)
      ensures ret == 0 ==> data == Written(old(data), offset, Zeroes(n), end + b)
      ensures Reported(old(failures), failures, ret)
    {
      WriteBack(data, offset, a, Zeroes(n), b);
      ret := AlignedWrite(offset - a, block.bytes, 1, 1);
    }

    /** The middle of a zero write, in whole blocks */
    method ZeroMiddle(offset: nat, bytes: nat, noFallback: bool) returns (ret: int, m: nat)
      requires limits.Valid()
      modifies this`data, this`failures, this`refusals, this`offers
      ensures m == Down(bytes, limits.align) && m <= bytes && ret <= 0 && SameOutside(old(data), data, offset, m)
      ensures ret == 0 ==> data == Write(old(data), offset, Zeroes(m))
      ensures ZeroReported(old(failures), failures, refusals > old(refusals), noFallback, ret)
      ensures refusals >= old(refusals)
    {
      DownIs(bytes, limits.align);
      DownGreatest(bytes, 0, limits.align);
      ret, m := 0, Down(bytes, limits.align);
      if bytes >= limits.align {
        ghost var chunks;
        ret, chunks := DoPwriteZeroes(offset, m, noFallback);
      } else {
        MultipleDiff(m, 0, limits.align);
      }
    }

    method ZeroLast(offset: nat, n: nat, end: nat, tail: nat, block: Block) returns (ret: int)
      requires limits.Valid() && n > 0 && end == offset + n && offset % limits.align == 0
      requires |block.bytes| % limits.align == 0 && block == LastBlock(data, n, end, tail)
      modifies this`data, this`failures
      ensures ret <= 0 && SameOutside(old(data), data, offset, n + tail)
      ensures ret == 0 ==> data == Written(old(data), offset, Zeroes(n), end + tail)
      ensures Reported(old(failures), failures, ret)
    {
      OneSided(data, offset, 0, n, end, tail);
      ret := ZeroBlock(offset, 0, n, end, tail, block);
    }

    /** The last block of a zero write, after `m` bytes of it, if it is not a whole one */
    method ZeroTail(ghost d: Content, offset: nat, m: nat, bytes: nat, tail: nat, tailBlock: Block) returns (ret: int)
      requires limits.Valid() && m <= bytes && data == Write(d, offset, Zeroes(m))
               && SameOutside(d, data, offset, bytes + tail)
      requires if m < bytes then
                 (offset + m) % limits.align == 0 && |tailBlock.bytes| % limits.align == 0
                     && tailBlock == LastBlock(d, bytes - m, offset + bytes, tail)
               else tail == 0
      modifies this`data, this`failures
      ensures ret <= 0 && SameOutside(d, data, offset, bytes + tail)
      ensures ret == 0 ==> data == Written(d, offset, Zeroes(bytes), offset + bytes + tail)
      ensures Reported(old(failures), failures, ret)
    {
      if m < bytes {
        TailWritten(d, offset, m, bytes, tail);
        TailRead(d, offset, m, bytes, tail);
        ret := ZeroLast(offset + m, bytes - m, offset + bytes, tail, tailBlock);
        Wider(old(data), data, offset + m, bytes - m + tail, offset, bytes + tail);
      } else {
        ret := 0;
        ExtendedWrite(d, offset + m, offset, Zeroes(m));
      }
    }

    /** What is left of a zero write after its head; `tail` bytes of the last block are kept */
    method ZeroRest(offset: nat, bytes: nat, tail: nat, tailBlock: Block, noFallback: bool) returns (ret: int)
      requires limits.Valid() && offset % limits.align == 0 && (bytes + tail) % limits.align == 0 && tail < limits.align
      requires tail > 0 ==> tailBlock == LastBlock(data, limits.align - tail, offset + bytes, tail)
      modifies this`data, this`failures, this`refusals, this`offers
      ensures ret <= 0 && SameOutside(old(data), data, offset, bytes + tail)
      ensures ret == 0 ==> data == Written(old(data), offset, Zeroes(bytes), offset + bytes + tail)
      ensures ZeroReported(old(failures), failures, refusals > old(refusals), noFallback, ret)
      ensures refusals >= old(refusals)
    {
      ghost var d := data;
      var m;
      ret, m := ZeroMiddle(offset, bytes, noFallback);
      Wider(d, data, offset, m, offset, bytes + tail);
      if ret == 0 {
        assert if bytes > m then (offset + m) % limits.align == 0 && limits.align % limits.align == 0
            && bytes - m == limits.align - tail && tail > 0 else tail == 0 by {
          RestSplit(offset, bytes, tail, m, limits.align);
        }
        ret := ZeroTail(d, offset, m, bytes, tail, tailBlock);
      }
    }

    method ZeroBuffer(pad: Pad, offset: nat, bytes: nat) returns (buf: Bytes)
      requires limits.Valid() && PadOk(pad, offset, bytes, limits.align) && bytes > 0
      ensures ZeroesBetween(data, pad, offset, bytes, buf)
    {
      PadFits(pad, offset, bytes, limits.align);
      var start, total := offset - pad.head, pad.head + bytes + pad.tail;
      buf := RmwRead(pad, start, total, true);
      BetweenEnds(data, pad, offset, bytes, start, total, buf);
    }

    /** The first block of a zero write, if `head` bytes of it are kept; `n` of the requested bytes are done then. It
        lies in the `most` bytes from `offset - head` on. */
    method ZeroHead(offset: nat, head: nat, n: nat, block: Block, ghost most: nat) returns (ret: int)
      requires limits.Valid() && head <= offset && (head == 0 ==> n == 0) && head + n <= most
      requires head > 0 ==> n > 0 && (offset - head) % limits.align == 0 && |block.bytes| % limits.align == 0
      requires head > 0 ==> block == FirstBlock(data, offset, head, n)
      modifies this`data, this`failures
      ensures ret <= 0 && SameOutside(old(data), data, offset - head, most)
      ensures ret == 0 ==> data == Write(old(data), offset, Zeroes(n))
      ensures Reported(old(failures), failures, ret)
    {
      ret := 0;
      if head > 0 {
        ExtendedWrite(data, offset + n + 0, offset, Zeroes(n));
        OneSided(data, offset, head, n, offset + n, 0);
        ret := ZeroBlock(offset, head, n, offset + n, 0, block);
        Wider(old(data), data, offset - head, head + n, offset - head, most);
      }
    }

    method ZeroAfterHead(ghost d: Content, offset: nat, n: nat, bytes: nat, tail: nat, tailBlock: Block,
        noFallback: bool, ghost lo: nat, ghost most: nat) returns (ret: int)
      requires limits.Valid() && n < bytes && data == Write(d, offset, Zeroes(n))
      requires lo <= offset && offset + bytes + tail == lo + most
      requires (offset + n) % limits.align == 0 && (bytes - n + tail) % limits.align == 0 && tail < limits.align
      requires tail > 0 ==> tailBlock == LastBlock(d, limits.align - tail, offset + bytes, tail)
      modifies this`data, this`failures, this`refusals, this`offers
      ensures ret <= 0 && SameOutside(old(data), data, lo, most)
      ensures ret == 0 ==> data == Written(d, offset, Zeroes(bytes), offset + bytes + tail)
      ensures ZeroReported(old(failures), failures, refusals > old(refusals), noFallback, ret)
      ensures refusals >= old(refusals)
    {
      ReadAfterWrite(d, offset, Zeroes(n), offset + bytes, tail);
      TailWritten(d, offset, n, bytes, tail);
      assert tail > 0 ==> tailBlock == LastBlock(data, limits.align - tail, (offset + n) + (bytes - n), tail);
      ret := ZeroRest(offset + n, bytes - n, tail, tailBlock, noFallback);
      Wider(old(data), data, offset + n, bytes - n + tail, lo, most);
    }

    /** A padded zero write that does not fit the padding buffer */
    method ZeroPadded(offset: nat, head: nat, n: nat, bytes: nat, tail: nat, headBlock: Block, tailBlock: Block,
        noFallback: bool) returns (ret: int)
      requires limits.Valid() && head <= offset && (head == 0 ==> n == 0) && n < bytes && tail < limits.align
      requires head > 0 ==> n > 0 && (offset - head) % limits.align == 0 && |headBlock.bytes| % limits.align == 0
      requires (offset + n) % limits.align == 0 && (bytes - n + tail) % limits.align == 0
      requires head > 0 ==> headBlock == FirstBlock(data, offset, head, n)
      requires tail > 0 ==> tailBlock == LastBlock(data, limits.align - tail, offset + bytes, tail)
      modifies this`data, this`failures, this`refusals, this`offers
      ensures ret <= 0 && SameOutside(old(data), data, offset - head, head + bytes + tail)
      ensures ret == 0 ==> data == Written(old(data), offset, Zeroes(bytes), offset + bytes + tail)
      ensures ZeroReported(old(failures), failures, refusals > old(refusals), noFallback, ret)
      ensures refusals >= old(refusals)
    {
      ghost var most := head + bytes + tail;
      ret := ZeroHead(offset, head, n, headBlock, most);
      if ret == 0 {
        ret := ZeroAfterHead(old(data), offset, n, bytes, tail, tailBlock, noFallback, offset - head, most);
      }
    }

    /** The padding buffer that takes the whole request */
    method ReadMerged(pad: Pad, offset: nat, bytes: nat) returns (block: Block)
      requires limits.Valid() && PadOk(pad, offset, bytes, limits.align) && bytes > 0 && pad.mergeReads
      ensures block == Around(data, offset, pad.head, bytes, offset + bytes, pad.tail)
      ensures |block.bytes| % limits.align == 0
    {
      var buf := ZeroBuffer(pad, offset, bytes);
      MergedBuffer(data, pad, offset, bytes, buf, limits.align);
      block := Block(buf);
    }

    /** The first and the last block of a request that does not fit the padding buffer */
    method ReadBlocks(pad: Pad, offset: nat, bytes: nat, n: nat) returns (headBlock: Block, tailBlock: Block)
      requires limits.Valid() && PadOk(pad, offset, bytes, limits.align) && bytes > 0 && !pad.mergeReads
      requires n == if pad.head > 0 then limits.align - pad.head else 0
      ensures n < bytes && (offset + n) % limits.align == 0 && (bytes - n + pad.tail) % limits.align == 0
              && |headBlock.bytes| % limits.align == 0
      ensures pad.head > 0 ==> headBlock == FirstBlock(data, offset, pad.head, n)
      ensures pad.tail > 0 ==> tailBlock == LastBlock(data, limits.align - pad.tail, offset + bytes, pad.tail)
    {
      var buf := ZeroBuffer(pad, offset, bytes);
      BlocksReady(data, pad, offset, bytes, buf, limits.align, n);
      headBlock, tailBlock := Block(buf[..limits.align]), Block(buf[pad.bufLen - limits.align..]);
    }

    method ZeroWithPad(pad: Pad, offset: nat, bytes: nat, noFallback: bool) returns (ret: int)
      requires limits.Valid() && PadOk(pad, offset, bytes, limits.align) && bytes > 0
      modifies this`data, this`failures, this`refusals, this`offers
      ensures ret <= 0 && SameOutside(old(data), data, offset - pad.head, pad.head + bytes + pad.tail)
      ensures ret == 0 ==> data == Written(old(data), offset, Zeroes(bytes), offset + bytes + pad.tail)
      ensures ZeroReported(old(failures), failures, refusals > old(refusals), noFallback, ret)
      ensures refusals >= old(refusals)
    {
      if pad.mergeReads {
        var block := ReadMerged(pad, offset, bytes);
        ret := ZeroBlock(offset, pad.head, bytes, offset + bytes, pad.tail, block);
      } else {
        var n := if pad.head > 0 then limits.align - pad.head else 0;
        var headBlock, tailBlock := ReadBlocks(pad, offset, bytes, n);
        ret := ZeroPadded(offset, pad.head, n, bytes, pad.tail, headBlock, tailBlock, noFallback);
      }
    }

    /** `bdrv_co_do_zero_pwritev`: exactly the requested bytes become zero. */
    method ZeroPwritev(offset: nat, bytes: nat, noFallback: bool) returns (ret: int)
      requires limits.Valid() && (bytes > 0 || offset % limits.align == 0)
      modifies this`data, this`failures, this`refusals, this`offers
      ensures ret <= 0
      ensures var (lo, hi) := (Down(offset, limits.align), Up(offset + bytes, limits.align));
              && 0 <= lo <= offset && offset + bytes <= hi && SameOutside(old(data), data, lo, hi - lo)
              && (ret == 0 ==> data == Written(old(data), offset, Zeroes(bytes), hi))
      ensures ZeroReported(old(failures), failures, refusals > old(refusals), noFallback, ret)
      ensures refusals >= old(refusals)
    {
      AlignedSpan(offset, bytes, limits.align);
      InitPaddingOk(offset, bytes, limits.align);
      match InitPadding(offset, bytes, limits.align) {
        case None =>
          ret := ZeroRest(offset, bytes, 0, Block([]), noFallback);
        case Some(pad) =>
          ret := ZeroWithPad(pad, offset, bytes, noFallback);
      }
    }
  }
}
