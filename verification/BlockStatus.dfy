/** Block status over a backing chain: which layer a range comes from, and whether it reads as zeroes. */
module BlockStatus {
  import opened Options
  import opened Alignment
  import opened DiskBytes

  type Positive = a: nat | a > 0 witness 1

  /** What a driver's `bdrv_co_block_status` says of the `pnum` bytes from the offset it was asked about;
      with `recurse` the data is in the node's file, from `at` on. */
  datatype Answer = Error(code: int) | Answer(data: bool, zero: bool, recurse: bool, offsetValid: bool, pnum: nat,
      at: nat)

  /** Nodes by how they answer. `Plain` has no `bdrv_co_block_status`; `Raw` hands every request on, shifted;
      `Cow` says which bytes it holds itself. */
  datatype Node =
    | Plain(size: nat, bytes: nat -> Byte)
    | Filter(size: nat, child: Node)
    | Raw(size: nat, file: Node, shift: nat)
    | Cow(size: nat, align: Positive, holds: nat -> bool, bytes: nat -> Byte, answer: (bool, nat, nat) -> Answer,
          dataFile: Option<Node>, supportsBacking: bool, backing: Option<Node>)
  {
    /** `bdrv_filter_or_cow_bs` */
    function Next(): Option<Node> {
      match this
      case Filter(_, c) => Some(c)
      case Cow(_, _, _, _, _, _, _, b) => b
      case _ => None
    }
  }

  // ---- what nodes mean ----

  /** The byte that a read of the node gives, through all of its backing chain. */
  ghost function ReadAt(n: Node, i: nat): Byte
    decreases n
  {
    if i >= n.size then 0
    else
      match n
      case Plain(_, bytes) => bytes(i)
      case Filter(_, c) => ReadAt(c, i)
      case Raw(_, f, shift) => ReadAt(f, i + shift)
      case Cow(_, _, holds, bytes, _, _, _, b) => if holds(i) then bytes(i) else if b.Some? then ReadAt(b.value, i)
          else 0
  }

  /** The node itself, and not what is behind it, provides byte `i`. */
  ghost predicate Provides(n: Node, i: nat)
    decreases n
  {
    i < n.size &&
    match n
    case Plain(_, _) => true
    case Filter(_, c) => Provides(c, i)
    case Raw(_, f, shift) => Provides(f, i + shift)
    case Cow(_, _, holds, _, _, _, _, _) => holds(i)
  }

  /** The node has nothing at or after `i`. */
  predicate Ends(n: Node, i: nat)
    decreases n
  {
    i >= n.size ||
    match n
    case Filter(_, c) => Ends(c, i)
    case Raw(_, f, shift) => Ends(f, i + shift)
    case _ => false
  }

  /** The answer is true of each byte it is about. */
  ghost predicate AnswerOk(n: Node, offset: nat, a: Answer)
    requires n.Cow?
  {
    a.Answer? ==>
      && a.pnum > 0 && a.pnum % n.align == 0
      && (a.recurse ==> a.data && a.offsetValid && !a.zero && n.dataFile.Some?)
      && forall i: nat {:trigger n.bytes(i)} {:trigger n.holds(i)} :: offset <= i < offset + a.pnum && i < n.size ==>
           && (n.holds(i) <==> a.data || a.zero)
           && (a.zero ==> n.bytes(i) == 0)
           && (a.recurse ==> n.bytes(i) == ReadAt(n.dataFile.value, a.at + (i - offset)))
  }

  ghost predicate Truthful(n: Node)
    decreases n
  {
    match n
    case Plain(_, _) => true
    case Filter(_, c) => Truthful(c)
    case Raw(_, f, _) => Truthful(f)
    case Cow(size, align, _, _, answer, f, _, b) =>
      && (f.Some? ==> Truthful(f.value)) && (b.Some? ==> Truthful(b.value))
      && (forall want, o: nat, m: nat {:trigger answer(want, o, m)} :: AnswerOk(n, o, answer(want, o, m)))
  }

  // ---- bdrv_co_do_block_status ----

  datatype Status = Failed(code: int) | Status(provided: bool, zero: bool, data: bool, eof: bool, pnum: nat)

  function WithEof(r: Status, offset: nat, size: nat): Status {
    if r.Status? && offset + r.pnum == size then r.(eof := true) else r
  }

  function DoStatus(n: Node, want: bool, offset: nat, bytes: nat): Status
    decreases n, 2
  {
    if offset >= n.size then Status(false, false, false, true, 0)
    else if bytes == 0 then Status(false, false, false, false, 0)
    else
      var b := Min(bytes, n.size - offset);
      match n
      case Plain(_, _) => Status(true, false, true, offset + b == n.size, b)
      case Filter(_, c) => WithEof(DoStatus(c, want, offset, b), offset, n.size)
      case Raw(_, f, shift) => WithEof(DoStatus(f, want, offset + shift, b), offset, n.size)
      case Cow(_, _, _, _, _, _, _, _) => WithEof(CowStatus(n, want, offset, b), offset, n.size)
  }

  /** Asks the driver about whole blocks around the range, and cuts its answer to `b` bytes from `offset` on. */
  function CowStatus(n: Node, want: bool, offset: nat, b: nat): Status
    requires n.Cow?
    decreases n, 1
  {
    DownIs(offset, n.align);
    DownGreatest(offset, 0, n.align);
    UpIs(offset + b, n.align);
    var start := Down(offset, n.align);
    var a := n.answer(want, start, Up(offset + b, n.align) - start);
    if a.Error? then Failed(a.code)
    else
      var pnum := if a.pnum < offset - start then 0 else Min(a.pnum - (offset - start), b);
      Refined(n, want, offset, pnum, a, a.at + (offset - start))
  }

  /** The driver's answer for `pnum` bytes from `offset` on, sharpened by the backing file's length and by the data
      file */
  function Refined(n: Node, want: bool, offset: nat, pnum: nat, a: Answer, at: nat): Status
    requires n.Cow? && a.Answer?
    decreases n, 0
  {
    var provided := a.data || a.zero;
    var zero := a.zero || (!provided && n.supportsBacking
        && (n.backing.None? || (want && offset >= n.backing.value.size)));
    if want && a.recurse && n.dataFile.Some? && a.data && !zero && a.offsetValid then
      var r := DoStatus(n.dataFile.value, want, at, pnum);
      if r.Failed? then Status(provided, zero, a.data, false, pnum)
      else if r.eof && (r.pnum == 0 || r.zero) then Status(provided, true, a.data, false, pnum)
      else Status(provided, zero || r.zero, a.data, false, r.pnum)
    else Status(provided, zero, a.data, false, pnum)
  }

  /** Past its end a node reads as zeroes. */
  lemma {:induction false} EndsZero(n: Node, i: nat, j: nat)
    requires Ends(n, i) && i <= j
    ensures ReadAt(n, j) == 0 && !Provides(n, j)
    decreases n
  {
    if j < n.size {
      match n {
        case Filter(_, c) => EndsZero(c, i, j);
        case Raw(_, f, shift) => EndsZero(f, i + shift, j + shift);
      }
    }
  }

  ghost predicate ZeroAt(n: Node, i: nat) {
    ReadAt(n, i) == 0
  }

  /** What a status says of one byte. */
  ghost predicate ByteOk(n: Node, i: nat, provided: bool, zero: bool) {
    i < n.size && (Provides(n, i) <==> provided) && (zero ==> ZeroAt(n, i))
  }

  /** What a status says of the bytes it is about. */
  ghost predicate StatusOk(n: Node, offset: nat, bytes: nat, r: Status) {
    r.Status? ==>
      && r.pnum <= bytes && (r.pnum == 0 <==> bytes == 0 || Ends(n, offset)) && (r.pnum == 0 && bytes > 0 ==> r.eof)
      && (r.data ==> r.provided) && (r.provided ==> r.data || r.zero) && (r.pnum == 0 ==> !r.provided && !r.zero)
      && (bytes > 0 && offset + r.pnum == n.size ==> r.eof)
      && (r.eof ==> forall i: nat :: offset + r.pnum <= i ==> ZeroAt(n, i))
      && forall i: nat :: offset <= i < offset + r.pnum ==> ByteOk(n, i, r.provided, r.zero)
  }

  /** Handing a request on changes nothing but the offset. */
  lemma ForwardedOk(n: Node, c: Node, shift: nat, offset: nat, bytes: nat, r: Status)
    requires (n.Filter? && c == n.child && shift == 0) || (n.Raw? && c == n.file && shift == n.shift)
    requires offset < n.size && bytes > 0 && StatusOk(c, offset + shift, Min(bytes, n.size - offset), r)
    ensures StatusOk(n, offset, bytes, WithEof(r, offset, n.size))
  {
    if r.Status? {
      forall i: nat | offset <= i < offset + r.pnum ensures ByteOk(n, i, r.provided, r.zero) {
        assert ByteOk(c, i + shift, r.provided, r.zero);
      }
      if r.eof {
        forall i: nat | offset + r.pnum <= i ensures ZeroAt(n, i) {
          assert ZeroAt(c, i + shift);
        }
      }
    }
  }

  ghost predicate RangeOk(n: Node, offset: nat, r: Status)
    requires r.Status?
  {
    forall i: nat :: offset <= i < offset + r.pnum ==> ByteOk(n, i, r.provided, r.zero)
  }

  /** The flags before the data file is asked. */
  lemma FlagsOk(n: Node, want: bool, start: nat, offset: nat, pnum: nat, a: Answer)
    requires n.Cow? && AnswerOk(n, start, a) && a.Answer? && start <= offset && offset + pnum <= start + a.pnum
             && offset + pnum <= n.size
    ensures var provided := a.data || a.zero;
            var zero := a.zero || (!provided && n.supportsBacking
                && (n.backing.None? || (want && offset >= n.backing.value.size)));
            RangeOk(n, offset, Status(provided, zero, a.data, false, pnum))
  {
    var provided := a.data || a.zero;
    var zero := a.zero || (!provided && n.supportsBacking
        && (n.backing.None? || (want && offset >= n.backing.value.size)));
    forall i: nat | offset <= i < offset + pnum ensures ByteOk(n, i, provided, zero) {
      assert n.holds(i) <==> provided;
      assert a.zero ==> n.bytes(i) == 0;
    }
  }

  /** With RECURSE, the bytes are those of the data file. */
  lemma DataFileOk(n: Node, start: nat, offset: nat, pnum: nat, a: Answer, r: Status)
    requires n.Cow? && AnswerOk(n, start, a) && a.Answer? && start <= offset && offset + pnum <= start + a.pnum
             && offset + pnum <= n.size
    requires a.recurse && pnum > 0 && StatusOk(n.dataFile.value, a.at + (offset - start), pnum, r) && r.Status?
    ensures if r.eof && (r.pnum == 0 || r.zero) then RangeOk(n, offset, Status(true, true, a.data, false, pnum))
            else r.pnum > 0 && RangeOk(n, offset, Status(true, r.zero, a.data, false, r.pnum))
  {
    var (f, at) := (n.dataFile.value, a.at + (offset - start));
    forall i: nat | offset <= i < offset + pnum ensures Provides(n, i) && ReadAt(n, i) == ReadAt(f, at + (i - offset)) {
      assert n.holds(i);
      assert a.at + (i - start) == at + (i - offset);
    }
    forall i: nat | offset <= i < offset + r.pnum ensures ByteOk(n, i, true, r.zero) {
      assert ByteOk(f, at + (i - offset), r.provided, r.zero);
    }
    if r.eof && (r.pnum == 0 || r.zero) {
      forall i: nat | offset <= i < offset + pnum ensures ByteOk(n, i, true, true) {
        if i >= offset + r.pnum {
          assert ZeroAt(f, at + (i - offset));
        }
      }
    }
  }

  lemma CowDone(n: Node, offset: nat, bytes: nat, r: Status)
    requires n.Cow? && offset < n.size && r.Status? && RangeOk(n, offset, r) && !r.eof
             && (r.data ==> r.provided) && (r.provided ==> r.data || r.zero)
             && 0 < r.pnum <= Min(bytes, n.size - offset)
    ensures StatusOk(n, offset, bytes, WithEof(r, offset, n.size))
  {
  }

  lemma CowOk(n: Node, want: bool, start: nat, offset: nat, bytes: nat, pnum: nat, a: Answer)
    requires n.Cow? && AnswerOk(n, start, a) && a.Answer? && start <= offset < n.size
    requires 0 < pnum <= Min(bytes, n.size - offset) && offset + pnum <= start + a.pnum
    requires a.recurse ==> var (f, at) := (n.dataFile.value, a.at + (offset - start)); StatusOk(f, at, pnum,
             DoStatus(f, want, at, pnum))
    ensures StatusOk(n, offset, bytes, WithEof(Refined(n, want, offset, pnum, a, a.at + (offset - start)), offset,
            n.size))
  {
    FlagsOk(n, want, start, offset, pnum, a);
    if a.recurse {
      var r := DoStatus(n.dataFile.value, want, a.at + (offset - start), pnum);
      if r.Status? {
        DataFileOk(n, start, offset, pnum, a, r);
      }
    }
    CowDone(n, offset, bytes, Refined(n, want, offset, pnum, a, a.at + (offset - start)));
  }

  /** Where the driver is asked, and that its answer reaches the offset. */
  lemma Asked(n: Node, want: bool, offset: nat, b: nat) returns (start: nat, m: nat)
    requires Truthful(n) && n.Cow? && b > 0
    ensures start == Down(offset, n.align) && m == Up(offset + b, n.align) - start
    ensures var a := n.answer(want, start, m);
            AnswerOk(n, start, a) && start <= offset && (a.Answer? ==> offset < start + a.pnum)
  {
    DownIs(offset, n.align);
    DownGreatest(offset, 0, n.align);
    UpIs(offset + b, n.align);
    start, m := Down(offset, n.align), Up(offset + b, n.align) - Down(offset, n.align);
    var a := n.answer(want, start, m);
    if a.Answer? {
      MultipleDiff(a.pnum, 0, n.align);
    }
  }

  /** Whatever `bdrv_co_do_block_status` answers is true, if the drivers tell the truth. */
  lemma {:induction false} StatusTrue(n: Node, want: bool, offset: nat, bytes: nat)
    requires Truthful(n)
    ensures StatusOk(n, offset, bytes, DoStatus(n, want, offset, bytes))
    decreases n, 1
  {
    if offset < n.size && bytes > 0 {
      var b := Min(bytes, n.size - offset);
      match n {
        case Plain(_, _) =>
        case Filter(_, c) =>
          StatusTrue(c, want, offset, b);
          ForwardedOk(n, c, 0, offset, bytes, DoStatus(c, want, offset, b));
        case Raw(_, f, shift) =>
          StatusTrue(f, want, offset + shift, b);
          ForwardedOk(n, f, shift, offset, bytes, DoStatus(f, want, offset + shift, b));
        case Cow(_, _, _, _, _, _, _, _) =>
          CowTrue(n, want, offset, bytes);
      }
    }
  }

  lemma {:induction false} CowTrue(n: Node, want: bool, offset: nat, bytes: nat)
    requires Truthful(n) && n.Cow? && offset < n.size && bytes > 0
    ensures StatusOk(n, offset, bytes, WithEof(CowStatus(n, want, offset, Min(bytes, n.size - offset)), offset, n.size))
    decreases n, 0
  {
    var b := Min(bytes, n.size - offset);
    var start, m := Asked(n, want, offset, b);
    var a := n.answer(want, start, m);
    if a.Answer? {
      var pnum := Min(a.pnum - (offset - start), b);
      if n.dataFile.Some? {
        StatusTrue(n.dataFile.value, want, a.at + (offset - start), pnum);
      }
      CowOk(n, want, start, offset, bytes, pnum, a);
    }
  }

  /** A node fails only if the driver that was asked has failed. */
  ghost predicate Errs(n: Node, want: bool, code: int)
    decreases n
  {
    match n
    case Plain(_, _) => false
    case Filter(_, c) => Errs(c, want, code)
    case Raw(_, f, _) => Errs(f, want, code)
    case Cow(_, _, _, _, answer, _, _, _) => exists o: nat, m: nat :: answer(want, o, m) == Error(code)
  }

  lemma RefinedFlags(n: Node, want: bool, offset: nat, pnum: nat, a: Answer, at: nat)
    requires n.Cow? && a.Answer?
    ensures var r := Refined(n, want, offset, pnum, a, at);
            && r.Status? && (r.provided <==> a.data || a.zero)
            && (!r.provided ==>
                  (r.zero <==> n.supportsBacking && (n.backing.None? || (want && offset >= n.backing.value.size))))
  {
  }

  /** Data is known to be zero exactly if the driver says so, or zeroes are asked for and the data file, which it points
      to, knows or is too short. */
  lemma DataZeroIff(n: Node, want: bool, offset: nat, pnum: nat, a: Answer, at: nat)
    requires n.Cow? && a.Answer? && a.data && a.offsetValid && n.dataFile.Some?
    ensures Refined(n, want, offset, pnum, a, at).zero <==>
            || a.zero
            || (want && a.recurse && var f := DoStatus(n.dataFile.value, want, at, pnum);
                                     f.Status? && (f.zero || (f.eof && f.pnum == 0)))
  {
  }

  lemma CowFails(n: Node, want: bool, offset: nat, b: nat)
    requires n.Cow?
    ensures var r := CowStatus(n, want, offset, b); r.Failed? ==> Errs(n, want, r.code)
    ensures var r := CowStatus(n, want, offset, b);
            r.Status? && !r.provided ==>
              (r.zero <==> n.supportsBacking && (n.backing.None? || (want && offset >= n.backing.value.size)))
  {
    DownIs(offset, n.align);
    DownGreatest(offset, 0, n.align);
    UpIs(offset + b, n.align);
    var start := Down(offset, n.align);
    var a := n.answer(want, start, Up(offset + b, n.align) - start);
    if a.Answer? {
      var pnum := if a.pnum < offset - start then 0 else Min(a.pnum - (offset - start), b);
      RefinedFlags(n, want, offset, pnum, a, a.at + (offset - start));
    }
  }

  lemma {:induction false} FailedErrs(n: Node, want: bool, offset: nat, bytes: nat)
    ensures var r := DoStatus(n, want, offset, bytes); r.Failed? ==> Errs(n, want, r.code)
    decreases n
  {
    var r := DoStatus(n, want, offset, bytes);
    if r.Failed? {
      var b := Min(bytes, n.size - offset);
      match n {
        case Filter(_, c) => FailedErrs(c, want, offset, b);
        case Raw(_, f, shift) => FailedErrs(f, want, offset + shift, b);
        case Cow(_, _, _, _, _, _, _, _) => CowFails(n, want, offset, b);
      }
    }
  }

  /** Of an image with backing support, what it does not hold is known to be zero exactly if there is no backing file,
      or it is too short and zeroes are asked for. */
  lemma UnallocatedZeroIff(n: Node, want: bool, offset: nat, bytes: nat)
    requires n.Cow? && n.supportsBacking && offset < n.size && bytes > 0
    ensures var r := DoStatus(n, want, offset, bytes);
            r.Status? && !r.provided ==>
              (r.zero <==> n.backing.None? || (want && offset >= n.backing.value.size))
  {
    CowFails(n, want, offset, Min(bytes, n.size - offset));
  }

  // ---- bdrv_co_common_block_status_above ----

  /** `layers` are the nodes from the top down the filter and backing links. */
  ghost predicate IsChain(layers: seq<Node>) {
    forall k {:trigger layers[k]} :: 0 < k < |layers| ==> layers[k - 1].Next() == Some(layers[k])
  }

  /** What a node does not provide, it reads from the next layer. */
  lemma ReadsNext(n: Node, m: Node, i: nat)
    requires n.Next() == Some(m) && i < n.size && !Provides(n, i)
    ensures ReadAt(n, i) == ReadAt(m, i)
  {
  }

  ghost predicate ZeroFrom(n: Node, start: nat) {
    forall i: nat :: start <= i ==> ZeroAt(n, i)
  }

  ghost predicate Holds(n: Node, i: nat) {
    Provides(n, i)
  }

  ghost predicate Lacks(n: Node, i: nat) {
    i < n.size && !Provides(n, i)
  }

  ghost predicate ProvidesAll(n: Node, offset: nat, m: nat) {
    forall i: nat :: offset <= i < offset + m ==> Holds(n, i)
  }

  ghost predicate ProvidesNone(n: Node, offset: nat, m: nat) {
    forall i: nat :: offset <= i < offset + m ==> Lacks(n, i)
  }

  ghost predicate ReadsZero(n: Node, offset: nat, m: nat) {
    forall i: nat :: offset <= i < offset + m ==> ZeroAt(n, i)
  }

  /** None of the first `k` layers provides any of `m` bytes from `offset` on. */
  ghost predicate NotAbove(layers: seq<Node>, k: nat, offset: nat, m: nat)
    requires k <= |layers|
  {
    forall j :: 0 <= j < k ==> ProvidesNone(layers[j], offset, m)
  }

  lemma ProvidesNoneLess(n: Node, offset: nat, k: nat, m: nat)
    requires k <= m && ProvidesNone(n, offset, m)
    ensures ProvidesNone(n, offset, k)
  {
  }

  /** The answer of a layer, byte by byte */
  lemma AnswerMeans(n: Node, want: bool, offset: nat, m: nat)
    requires Truthful(n) && m > 0
    ensures var r := DoStatus(n, want, offset, m);
            r.Status? ==>
              && r.pnum <= m && (r.zero ==> ReadsZero(n, offset, r.pnum))
              && (if r.provided then ProvidesAll(n, offset, r.pnum) else ProvidesNone(n, offset, r.pnum))
              && (r.pnum == 0 <==> Ends(n, offset)) && (r.data ==> r.provided) && (r.provided ==> r.data || r.zero)
              && (r.eof ==> ZeroFrom(n, offset + r.pnum)) && (offset + r.pnum == n.size ==> r.eof)
              && (r.pnum > 0 ==> offset + r.pnum <= n.size)
  {
    StatusTrue(n, want, offset, m);
    var r := DoStatus(n, want, offset, m);
    if r.Status? {
      forall i: nat | offset <= i < offset + r.pnum
        ensures (if r.provided then Holds(n, i) else Lacks(n, i)) && (r.zero ==> ZeroAt(n, i))
      {
        assert ByteOk(n, i, r.provided, r.zero);
      }
      if r.pnum > 0 {
        assert ByteOk(n, offset + r.pnum - 1, r.provided, r.zero);
      }
    }
  }

  /** What the layers above do not provide is read from layer `k`. */
  lemma {:induction false} ReadsDown(layers: seq<Node>, k: nat, offset: nat, m: nat, i: nat)
    requires IsChain(layers) && k < |layers| && NotAbove(layers, k, offset, m) && offset <= i < offset + m
    ensures ReadAt(layers[0], i) == ReadAt(layers[k], i)
  {
    if k > 0 {
      ReadsDown(layers, k - 1, offset, m, i);
      assert ProvidesNone(layers[k - 1], offset, m);
      assert Lacks(layers[k - 1], i);
      ReadsNext(layers[k - 1], layers[k], i);
    }
  }

  lemma ZeroDown(layers: seq<Node>, k: nat, offset: nat, m: nat)
    requires IsChain(layers) && k < |layers| && NotAbove(layers, k, offset, m) && ReadsZero(layers[k], offset, m)
    ensures ReadsZero(layers[0], offset, m)
  {
    forall i: nat | offset <= i < offset + m ensures ZeroAt(layers[0], i) {
      ReadsDown(layers, k, offset, m, i);
      assert ZeroAt(layers[k], i);
    }
  }

  /** One layer's answer for a range that the layers above do not provide. */
  lemma LayerAnswer(layers: seq<Node>, k: nat, want: bool, offset: nat, m: nat) returns (r: Status)
    requires IsChain(layers) && k < |layers| && NotAbove(layers, k, offset, m) && Truthful(layers[k]) && m > 0
    ensures r == DoStatus(layers[k], want, offset, m)
    ensures r.Status? ==> r.pnum <= m && NotAbove(layers, k, offset, r.pnum)
                          && (r.zero ==> ReadsZero(layers[0], offset, r.pnum))
    ensures r.Status? ==> (r.pnum == 0 <==> Ends(layers[k], offset))
    ensures r.Status? && r.pnum == 0 ==> ReadsZero(layers[0], offset, m)
    ensures r.Status? ==> (r.data ==> r.provided) && (r.provided ==> r.data || r.zero)
    ensures r.Status? ==> (r.eof ==> ZeroFrom(layers[k], offset + r.pnum))
                          && (offset + r.pnum == layers[k].size ==> r.eof)
                          && (r.pnum > 0 ==> offset + r.pnum <= layers[k].size)
    ensures r.Status? && r.provided ==> ProvidesAll(layers[k], offset, r.pnum)
    ensures r.Status? && !r.provided ==>
              NotAbove(layers, k + 1, offset, r.pnum) && ProvidesNone(layers[k], offset, r.pnum)
  {
    r := DoStatus(layers[k], want, offset, m);
    AnswerMeans(layers[k], want, offset, m);
    if r.Status? {
      forall j | 0 <= j < k ensures ProvidesNone(layers[j], offset, r.pnum) {
        ProvidesNoneLess(layers[j], offset, r.pnum, m);
      }
      if r.zero {
        ZeroDown(layers, k, offset, r.pnum);
      }
      if r.pnum == 0 {
        forall i: nat | offset <= i ensures ZeroAt(layers[k], i) {
          EndsZero(layers[k], offset, i);
        }
        ZeroDown(layers, k, offset, m);
      }
    }
  }

  /** How many of the bytes are left for layer `k` by the answers of the layers above it */
  ghost function Left(layers: seq<Node>, k: nat, want: bool, offset: nat, bytes: nat): nat
    requires k <= |layers|
  {
    if k == 0 then bytes
    else
      var r := DoStatus(layers[k - 1], want, offset, Left(layers, k - 1, want, offset, bytes));
      if r.Status? then r.pnum else 0
  }

  /** What the walk says of the layer at which it ends: it provides the bytes or is too short for them, or it is the
      last one and none of them does. */
  ghost predicate EndsWalk(layers: seq<Node>, stop: nat, depth: nat, want: bool, offset: nat, bytes: nat, r: Status)
    requires r.Status? && 0 < depth <= stop <= |layers|
  {
    var last := layers[depth - 1];
    if depth > 1 && Ends(last, offset) then
      r.provided && r.zero && r.pnum == Left(layers, depth - 1, want, offset, bytes)
    else
      && r.pnum == Left(layers, depth, want, offset, bytes)
      && (r.provided ==> ProvidesAll(last, offset, r.pnum))
      && (!r.provided && r.pnum > 0 ==> depth == stop && ProvidesNone(last, offset, r.pnum))
  }

  /** The walk has passed the first `depth` layers, and none of them provides any of the next `n` bytes. `eof` is where
      the top layer ends, if it has said so. */
  ghost predicate Walking(layers: seq<Node>, depth: nat, want: bool, offset: nat, bytes: nat, n: nat, eof: nat,
      r: Status)
    requires depth <= |layers|
  {
    && 0 < n <= bytes && r.Status? && r.pnum == n && !r.provided && !r.data
    && n == Left(layers, depth, want, offset, bytes) && NotAbove(layers, depth, offset, n)
    && (depth == 0 ==> !r.zero && !r.eof && eof == 0)
    && (depth > 0 ==>
          && (r.zero ==> ReadsZero(layers[0], offset, n))
          && !Ends(layers[0], offset) && !Ends(layers[depth - 1], offset)
          && ProvidesNone(layers[depth - 1], offset, n) && EofOk(layers, depth, offset, n, eof, r))
  }

  ghost predicate EofOk(layers: seq<Node>, depth: nat, offset: nat, n: nat, eof: nat, r: Status)
    requires r.Status? && 0 < depth <= |layers|
  {
    && (eof > 0 ==> ZeroFrom(layers[0], eof))
    && offset + n <= layers[0].size && (offset + n == layers[0].size ==> eof == offset + n)
    && (r.eof ==> ZeroFrom(layers[depth - 1], offset + n)) && (depth == 1 && r.eof ==> eof == offset + n)
  }

  /** What the answer of the walk means: 0 bytes only for an empty request or past the end of the top layer; no layer
      above the last one provides any of the bytes; ZERO means that they read as zero. EOF is that of the top layer,
      except that an answer which no layer provides may keep the EOF of the last one. */
  ghost predicate Found(layers: seq<Node>, stop: nat, depth: nat, want: bool, offset: nat, bytes: nat, r: Status)
    requires 0 < depth <= stop <= |layers| && r.Status?
  {
    && r.pnum <= bytes && (r.pnum == 0 <==> bytes == 0 || Ends(layers[0], offset))
    && NotAbove(layers, depth - 1, offset, r.pnum) && EndsWalk(layers, stop, depth, want, offset, bytes, r)
    && (r.zero ==> ReadsZero(layers[0], offset, r.pnum))
    && (r.data ==> r.provided) && (r.provided ==> r.data || r.zero)
    && (r.eof ==> ZeroFrom(layers[0], offset + r.pnum)
                  || (!r.provided && ZeroFrom(layers[depth - 1], offset + r.pnum)))
    && (bytes > 0 && offset + r.pnum == layers[0].size ==> r.eof)
  }

  /** The walk goes on: layer `depth` provides none of the bytes that its answer `r` is about. */
  lemma WalkOn(layers: seq<Node>, depth: nat, want: bool, offset: nat, bytes: nat, n: nat, eof: nat, was: Status,
      r: Status)
    requires IsChain(layers) && depth < |layers| && Truthful(layers[depth])
    requires Walking(layers, depth, want, offset, bytes, n, eof, was) && r == DoStatus(layers[depth], want, offset, n)
    requires r.Status? && r.pnum > 0 && !r.provided
    ensures Walking(layers, depth + 1, want, offset, bytes, r.pnum,
                    if depth == 0 && r.eof then offset + r.pnum else eof, r)
  {
    var _ := LayerAnswer(layers, depth, want, offset, n);
  }

  /** The walk ends at layer `depth`, which has nothing at `offset`. */
  lemma WalkShort(layers: seq<Node>, stop: nat, depth: nat, want: bool, offset: nat, bytes: nat, n: nat, eof: nat,
      was: Status, r: Status)
    requires IsChain(layers) && depth < stop <= |layers| && Truthful(layers[depth])
    requires Walking(layers, depth, want, offset, bytes, n, eof, was) && r == DoStatus(layers[depth], want, offset, n)
    requires r.Status? && r.pnum == 0
    ensures Found(layers, stop, depth + 1, want, offset, bytes,
                  if depth > 0 then Status(true, true, false, offset + n == eof, n) else r)
  {
    var _ := LayerAnswer(layers, depth, want, offset, n);
    AnswerMeans(layers[depth], want, offset, n);
  }

  /** The walk ends at layer `depth`, which provides the bytes. */
  lemma WalkProvided(layers: seq<Node>, stop: nat, depth: nat, want: bool, offset: nat, bytes: nat, n: nat, eof: nat,
      was: Status, r: Status)
    requires IsChain(layers) && depth < stop <= |layers| && Truthful(layers[depth])
    requires Walking(layers, depth, want, offset, bytes, n, eof, was) && r == DoStatus(layers[depth], want, offset, n)
    requires r.Status? && r.pnum > 0 && r.provided
    ensures Found(layers, stop, depth + 1, want, offset, bytes,
                  if depth > 0 then r.(eof := offset + r.pnum == eof) else r)
  {
    var _ := LayerAnswer(layers, depth, want, offset, n);
  }

  /** The walk has passed all layers. */
  lemma WalkOver(layers: seq<Node>, stop: nat, want: bool, offset: nat, bytes: nat, n: nat, eof: nat, r: Status)
    requires 0 < stop <= |layers| && Walking(layers, stop, want, offset, bytes, n, eof, r)
    ensures Found(layers, stop, stop, want, offset, bytes, r.(eof := r.eof || offset + n == eof))
  {
  }

  lemma NothingAsked(layers: seq<Node>, stop: nat, want: bool, offset: nat)
    requires 0 < stop <= |layers| && Truthful(layers[0])
    ensures var r := DoStatus(layers[0], want, offset, 0);
            r.Status? && Found(layers, stop, 1, want, offset, 0, r)
  {
    StatusTrue(layers[0], want, offset, 0);
  }

  /** `bdrv_co_common_block_status_above` over the first `stop` layers: those above the base, and the base if it is
      included. */
  method StatusAbove(layers: seq<Node>, stop: nat, want: bool, offset: nat, bytes: nat)
      returns (ret: Status, depth: nat)
    requires IsChain(layers) && stop <= |layers| && forall k :: 0 <= k < |layers| ==> Truthful(layers[k])
    ensures stop == 0 ==> ret == Status(false, false, false, false, bytes) && depth == 0
    ensures stop > 0 ==> 0 < depth <= stop
    ensures ret.Failed? ==> depth > 0 && Errs(layers[depth - 1], want, ret.code)
    ensures ret.Status? && stop > 0 ==> Found(layers, stop, depth, want, offset, bytes, ret)
  {
    if stop == 0 {
      return Status(false, false, false, false, bytes), 0;
    }
    if bytes == 0 {
      NothingAsked(layers, stop, want, offset);
      return DoStatus(layers[0], want, offset, 0), 1;
    }
    var n: nat, eof: nat := bytes, 0;
    depth := 0;
    ret := Status(false, false, false, false, n);
    while depth < stop
      invariant 0 <= depth <= stop && Walking(layers, depth, want, offset, bytes, n, eof, ret)
      decreases stop - depth
    {
      ghost var was := ret;
      ret := DoStatus(layers[depth], want, offset, n);
      depth := depth + 1;
      if ret.Failed? {
        FailedErrs(layers[depth - 1], want, offset, n);
        return;
      }
      if ret.pnum == 0 {
        WalkShort(layers, stop, depth - 1, want, offset, bytes, n, eof, was, ret);
        if depth > 1 {
          ret := Status(true, true, false, offset + n == eof, n);
        }
        return;
      }
      if ret.provided {
        WalkProvided(layers, stop, depth - 1, want, offset, bytes, n, eof, was, ret);
        if depth > 1 {
          ret := ret.(eof := offset + ret.pnum == eof);
        }
        return;
      }
      WalkOn(layers, depth - 1, want, offset, bytes, n, eof, was, ret);
      n := ret.pnum;
      if depth == 1 && ret.eof {
        eof := offset + n;
      }
    }
    WalkOver(layers, stop, want, offset, bytes, n, eof, ret);
    ret := ret.(eof := ret.eof || offset + n == eof);
  }
}
