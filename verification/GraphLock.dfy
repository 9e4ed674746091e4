/** The block graph's reader/writer lock: readers count themselves in a counter of their own context,
    and the writer adds the counters up one at a time. One access to shared data per step. */
module GraphLock {
  import opened IdLists

  type Context = nat

  const WORD := 0x1_0000_0000
  const SIGN := 0x8000_0000

  /** A reading coroutine in `bdrv_graph_co_rdlock`; `ctx` is the context whose counter it uses. */
  datatype Reader =
    | Out
    | Counted(ctx: Context)   // has added itself, will look at has_writer
    | Blocked(ctx: Context)   // saw a writer, wants the list lock
    | Retesting(ctx: Context) // holds the list lock
    | Parked(ctx: Context)
    | Woken(ctx: Context)
    | Inside
  {
    predicate Transient() {
      Counted? || Blocked? || Retesting?
    }

    predicate Uses(c: Context) {
      (Transient() || Parked? || Woken?) && ctx == c
    }
  }

  /** The writer in `bdrv_graph_wrlock` and `bdrv_graph_wrunlock`. A scan has read the first `next` counters. No step
      looks at `missed`, by how much those have grown since they were read, nor at `exact`, the sum that `rd` would be
      without wrap-around. */
  datatype Writer =
    | Absent
    | Clear
    | WaitLock | WaitScan(next: nat, rd: nat, missed: int)
    | Announce
    | ScanLock | Scan(next: nat, rd: nat, exact: int)
    | Writing
    | UnlockLock | UnlockSet | UnlockWake
  {
    predicate Locked() {
      WaitScan? || Scan? || UnlockSet? || UnlockWake?
    }

    predicate Announced() {
      ScanLock? || Scan? || Writing? || UnlockLock? || UnlockSet?
    }

    /** The counter of `c` in `list` moves by `n`. */
    function Miss(list: seq<Context>, c: Context, n: int): Writer {
      if WaitScan? && next <= |list| && c in list[..next] then WaitScan(next, rd, missed + n) else this
    }

    predicate Alone() {
      Writing? || UnlockLock? || UnlockSet?
    }
  }

  datatype Holder = Free | ByReader(r: nat) | ByWriter

  /** Counters hold the value that they would have without wrap-around; the word in memory is that value modulo
      `WORD`. */
  datatype State = State(list: seq<Context>, counter: map<Context, int>, orphaned: int, hasWriter: bool,
                         lock: Holder, readers: seq<Reader>, writer: Writer)
  {
    function At(r: nat, p: Reader): State
      requires r < |readers|
    {
      this.(readers := readers[r := p])
    }

    function Add(c: Context, n: int): State
      requires c in counter
    {
      this.(counter := counter[c := counter[c] + n], writer := writer.Miss(list, c, n))
    }
  }

  function Word(n: int): nat {
    n % WORD
  }

  ghost predicate ReaderStep(s: State, s': State, r: nat, c: Context)
    requires r < |s.readers| && c in s.counter
  {
    match s.readers[r]
    case Out => s' == s.Add(c, 1).At(r, Counted(c))
    case Counted(d) => s' == s.At(r, if s.hasWriter then Blocked(d) else Inside)
    case Blocked(d) => s.lock.Free? && s' == s.At(r, Retesting(d)).(lock := ByReader(r))
    case Retesting(d) =>
      c == d && s' == (if s.hasWriter then s.Add(d, -1).At(r, Parked(d)) else s.At(r, Inside)).(lock := Free)
    case Parked(d) => false
    case Woken(d) => c == d && s' == s.Add(d, 1).At(r, Counted(d))
    case Inside => s' == s.Add(c, -1).At(r, Out) // on any context
  }

  function Wake(p: Reader): Reader {
    if p.Parked? then Woken(p.ctx) else p
  }

  ghost predicate WriterStep(s: State, s': State) {
    match s.writer
    case Absent => s' == s.(writer := Clear)
    case Clear => s' == s.(writer := WaitLock, hasWriter := false)
    case WaitLock => s.lock.Free? && s' == s.(writer := WaitScan(0, Word(s.orphaned), 0), lock := ByWriter)
    case WaitScan(i, rd, missed) =>
      if i < |s.list| then
        s.list[i] in s.counter && s' == s.(writer := WaitScan(i + 1, Word(rd + Word(s.counter[s.list[i]])), missed))
      else rd < SIGN && s' == s.(writer := if rd >= 1 then WaitLock else Announce, lock := Free)
    case Announce => s' == s.(writer := ScanLock, hasWriter := true)
    case ScanLock => s.lock.Free? && s' == s.(writer := Scan(0, Word(s.orphaned), s.orphaned), lock := ByWriter)
    case Scan(i, rd, exact) =>
      if i < |s.list| then
        && s.list[i] in s.counter
        && var n := s.counter[s.list[i]]; s' == s.(writer := Scan(i + 1, Word(rd + Word(n)), exact + n))
      else rd < SIGN && s' == s.(writer := if rd >= 1 then Clear else Writing, lock := Free)
    case Writing => s' == s.(writer := UnlockLock)
    case UnlockLock => s.lock.Free? && s' == s.(writer := UnlockSet, lock := ByWriter)
    case UnlockSet => s' == s.(writer := UnlockWake, hasWriter := false)
    case UnlockWake => s' == s.(writer := Absent,
        readers := seq(|s.readers|, i requires 0 <= i < |s.readers| => Wake(s.readers[i])), lock := Free)
  }

  /** `register_aiocontext` and `unregister_aiocontext`; a context goes only when no reader is using its counter. */
  ghost predicate ContextStep(s: State, s': State, c: Context) {
    && s.lock.Free?
    && (|| (c !in s.list && s' == s.(list := s.list + [c], counter := s.counter[c := 0]))
        || Unregistered(s, s', c))
  }

  ghost predicate Unregistered(s: State, s': State, c: Context) {
    && c in s.list && c in s.counter
    && (forall r :: 0 <= r < |s.readers| ==> !s.readers[r].Uses(c))
    && s' == s.(list := Without(s.list, c), counter := s.counter - {c}, orphaned := s.orphaned + s.counter[c])
  }

  ghost predicate Step(s: State, s': State) {
    || WriterStep(s, s')
    || (exists r: nat, c :: r < |s.readers| && c in s.counter && ReaderStep(s, s', r, c))
    || (exists c :: ContextStep(s, s', c))
  }

  /** The bound on the number of readers keeps any sum below the sign bit. */
  ghost predicate Init(s: State) {
    && (forall r :: 0 <= r < |s.readers| ==> s.readers[r].Out?) && 2 * |s.readers| < SIGN
    && s.list == [] && s.counter == map[] && s.orphaned == 0 && !s.hasWriter && s.lock.Free? && s.writer.Absent?
  }

  ghost predicate StepAt(run: seq<State>, i: nat)
    requires 0 < i < |run|
  {
    Step(run[i - 1], run[i])
  }

  ghost predicate IsRun(run: seq<State>) {
    |run| > 0 && Init(run[0]) && forall i :: 0 < i < |run| ==> StepAt(run, i)
  }

  // ---- counting ----

  function Sum(list: seq<Context>, counter: map<Context, int>): int
    requires forall c :: c in list ==> c in counter
  {
    if list == [] then 0 else counter[list[0]] + Sum(list[1..], counter)
  }

  lemma {:induction false} SumAdd(list: seq<Context>, counter: map<Context, int>, c: Context, n: int)
    requires NoDup(list) && (forall d :: d in list ==> d in counter) && c in counter
    ensures Sum(list, counter[c := counter[c] + n]) == Sum(list, counter) + if c in list then n else 0
  {
    if list != [] {
      SumAdd(list[1..], counter, c, n);
    }
  }

  lemma {:induction false} SumSame(list: seq<Context>, a: map<Context, int>, b: map<Context, int>)
    requires forall c :: c in list ==> c in a && c in b && a[c] == b[c]
    ensures Sum(list, a) == Sum(list, b)
  {
    if list != [] {
      SumSame(list[1..], a, b);
    }
  }

  lemma {:induction false} SumConcat(a: seq<Context>, b: seq<Context>, counter: map<Context, int>)
    requires forall c :: c in a + b ==> c in counter
    ensures forall c :: c in a ==> c in counter
    ensures forall c :: c in b ==> c in counter
    ensures Sum(a + b, counter) == Sum(a, counter) + Sum(b, counter)
  {
    assert forall c :: c in a ==> c in a + b;
    assert forall c :: c in b ==> c in a + b;
    if a == [] {
      assert a + b == b;
    } else {
      assert (a + b)[1..] == a[1..] + b;
      SumConcat(a[1..], b, counter);
    }
  }

  /** What one reader adds: `inside` if it is inside, 1 if its counter is among `live` and it is not sure yet. */
  function Share(p: Reader, inside: nat, live: seq<Context>): nat {
    if p.Inside? then inside else if p.Transient() && p.ctx in live then 1 else 0
  }

  function Count(readers: seq<Reader>, inside: nat, live: seq<Context>): nat {
    if readers == [] then 0 else Share(readers[0], inside, live) + Count(readers[1..], inside, live)
  }

  lemma {:induction false} CountUpdate(readers: seq<Reader>, r: nat, p: Reader, inside: nat, live: seq<Context>)
    requires r < |readers|
    ensures Count(readers[r := p], inside, live)
            == Count(readers, inside, live) - Share(readers[r], inside, live) + Share(p, inside, live)
  {
    if r == 0 {
      assert readers[r := p][1..] == readers[1..];
    } else {
      assert readers[r := p][1..] == readers[1..][r - 1 := p];
      CountUpdate(readers[1..], r - 1, p, inside, live);
    }
  }

  lemma {:induction false} CountLess(a: seq<Reader>, b: seq<Reader>, inside: nat, live: seq<Context>, inside': nat,
      live': seq<Context>)
    requires |a| == |b| && forall r :: 0 <= r < |a| ==> Share(a[r], inside, live) <= Share(b[r], inside', live')
    ensures Count(a, inside, live) <= Count(b, inside', live')
  {
    if a != [] {
      CountLess(a[1..], b[1..], inside, live, inside', live');
    }
  }

  lemma {:induction false} CountBound(readers: seq<Reader>, inside: nat, live: seq<Context>)
    requires inside <= 1
    ensures Count(readers, inside, live) <= |readers|
  {
    if readers != [] {
      CountBound(readers[1..], inside, live);
    }
  }

  lemma {:induction false} CountNone(readers: seq<Reader>, inside: nat, live: seq<Context>)
    requires forall r :: 0 <= r < |readers| ==> Share(readers[r], inside, live) == 0
    ensures Count(readers, inside, live) == 0
  {
    if readers != [] {
      CountNone(readers[1..], inside, live);
    }
  }

  lemma {:induction false} NobodyInside(readers: seq<Reader>, live: seq<Context>, r: nat)
    requires r < |readers| && Count(readers, 1, live) == 0
    ensures !readers[r].Inside?
  {
    if r > 0 {
      NobodyInside(readers[1..], live, r - 1);
    }
  }

  // ---- the invariant ----

  ghost predicate Lists(list: seq<Context>, counter: map<Context, int>) {
    NoDup(list) && forall c :: c in list <==> c in counter
  }

  ghost predicate ReaderOk(p: Reader, r: nat, counter: map<Context, int>, lock: Holder) {
    && (p.Transient() || p.Parked? || p.Woken? ==> p.ctx in counter)
    && (p.Retesting? <==> lock == ByReader(r))
  }

  ghost predicate ReadersOk(readers: seq<Reader>, counter: map<Context, int>, lock: Holder) {
    forall r :: 0 <= r < |readers| ==> ReaderOk(readers[r], r, counter, lock)
  }

  ghost predicate WriterOk(w: Writer, hasWriter: bool, lock: Holder, size: nat) {
    && (w.Locked() <==> lock.ByWriter?)
    && (w.Announced() ==> hasWriter) && (hasWriter ==> w.Announced() || w.Clear?)
    && (w.WaitScan? || w.Scan? ==> w.next <= size)
  }

  ghost predicate Shape(s: State) {
    && Lists(s.list, s.counter) && ReadersOk(s.readers, s.counter, s.lock)
       && WriterOk(s.writer, s.hasWriter, s.lock, |s.list|)
    && 2 * |s.readers| < SIGN
  }

  /** The counters add up to the readers that are inside or still deciding. */
  ghost predicate Balanced(list: seq<Context>, counter: map<Context, int>, orphaned: int, readers: seq<Reader>)
    requires Lists(list, counter)
  {
    orphaned + Sum(list, counter) == Count(readers, 1, list)
  }

  /** What the scan has seen plus what it will see is never less than the readers inside. */
  ghost predicate ScanOk(w: Writer, list: seq<Context>, counter: map<Context, int>, readers: seq<Reader>)
    requires Lists(list, counter)
  {
    w.Scan? && w.next <= |list| ==>
      var rest := list[w.next..];
      w.rd == Word(w.exact) && Count(readers, 1, rest) <= w.exact + Sum(rest, counter) <= |readers|
          + Count(readers, 0, list)
  }

  /** What a waiting scan has summed is what it would find there now, but for what it has missed. */
  ghost predicate WaitOk(w: Writer, list: seq<Context>, counter: map<Context, int>, orphaned: int)
    requires Lists(list, counter)
  {
    w.WaitScan? && w.next <= |list| ==> w.rd == Word(orphaned + Sum(list[..w.next], counter) - w.missed)
  }

  ghost predicate NoneInside(readers: seq<Reader>) {
    forall r :: 0 <= r < |readers| ==> !readers[r].Inside?
  }

  ghost predicate NoneParked(readers: seq<Reader>) {
    forall r :: 0 <= r < |readers| ==> !readers[r].Parked?
  }

  /** No reader is inside beside the writer, and a reader sleeps only while a writer is under way that will wake it. */
  ghost predicate Safe(s: State) {
    (s.writer.Alone() ==> NoneInside(s.readers)) && (s.writer.Absent? ==> NoneParked(s.readers))
  }

  ghost predicate Inv(s: State) {
    && Shape(s) && Safe(s)
    && Balanced(s.list, s.counter, s.orphaned, s.readers) && ScanOk(s.writer, s.list, s.counter, s.readers)
    && WaitOk(s.writer, s.list, s.counter, s.orphaned)
  }

  lemma MoveBalanced(list: seq<Context>, counter: map<Context, int>, orphaned: int, readers: seq<Reader>, c: Context,
      n: int, r: nat, p: Reader)
    requires Lists(list, counter) && c in counter && Balanced(list, counter, orphaned, readers)
    requires r < |readers| && Share(p, 1, list) == Share(readers[r], 1, list) + n
    ensures Lists(list, counter[c := counter[c] + n])
            && Balanced(list, counter[c := counter[c] + n], orphaned, readers[r := p])
  {
    SumAdd(list, counter, c, n);
    CountUpdate(readers, r, p, 1, list);
  }

  lemma MoveScanned(w: Writer, list: seq<Context>, counter: map<Context, int>, readers: seq<Reader>, c: Context, n: int,
      r: nat, p: Reader)
    requires Lists(list, counter) && c in counter && ScanOk(w, list, counter, readers) && w.Scan? && w.next <= |list|
             && r < |readers|
    requires var rest := list[w.next..];
             var seen := if c in rest then n else 0;
             Share(p, 1, rest) - Share(readers[r], 1, rest) <= seen <= Share(p, 0, list) - Share(readers[r], 0, list)
    ensures Lists(list, counter[c := counter[c] + n]) && ScanOk(w, list, counter[c := counter[c] + n], readers[r := p])
  {
    var rest := list[w.next..];
    NoDupDrop(list, w.next);
    SumAdd(rest, counter, c, n);
    CountUpdate(readers, r, p, 1, rest);
    CountUpdate(readers, r, p, 0, list);
  }

  lemma MoveMissed(w: Writer, list: seq<Context>, counter: map<Context, int>, orphaned: int, c: Context, n: int)
    requires Lists(list, counter) && c in counter && WaitOk(w, list, counter, orphaned)
    ensures Lists(list, counter[c := counter[c] + n])
            && WaitOk(w.Miss(list, c, n), list, counter[c := counter[c] + n], orphaned)
  {
    if w.WaitScan? && w.next <= |list| {
      NoDupTake(list, w.next);
      SumAdd(list[..w.next], counter, c, n);
    }
  }

  lemma ReaderKeepsReader(s: State, s': State, r: nat, c: Context, q: nat)
    requires r < |s.readers| && c in s.counter && ReaderStep(s, s', r, c) && q < |s'.readers| && q < |s.readers|
    requires ReaderOk(s.readers[r], r, s.counter, s.lock) && ReaderOk(s.readers[q], q, s.counter, s.lock)
    ensures ReaderOk(s'.readers[q], q, s'.counter, s'.lock)
  {
  }

  lemma ReaderKeepsReaders(s: State, s': State, r: nat, c: Context)
    requires Lists(s.list, s.counter) && ReadersOk(s.readers, s.counter, s.lock) && r < |s.readers| && c in s.counter
             && ReaderStep(s, s', r, c)
    ensures Lists(s'.list, s'.counter) && ReadersOk(s'.readers, s'.counter, s'.lock)
  {
    assert s'.counter.Keys == s.counter.Keys;
    forall q | 0 <= q < |s'.readers| ensures ReaderOk(s'.readers[q], q, s'.counter, s'.lock) {
      ReaderKeepsReader(s, s', r, c, q);
    }
  }

  lemma ReaderKeepsWriter(s: State, s': State, r: nat, c: Context)
    requires WriterOk(s.writer, s.hasWriter, s.lock, |s.list|) && ReadersOk(s.readers, s.counter, s.lock)
    requires r < |s.readers| && c in s.counter && ReaderStep(s, s', r, c)
    ensures WriterOk(s'.writer, s'.hasWriter, s'.lock, |s'.list|)
  {
    assert ReaderOk(s.readers[r], r, s.counter, s.lock);
  }

  lemma ReaderKeepsSafe(s: State, s': State, r: nat, c: Context)
    requires WriterOk(s.writer, s.hasWriter, s.lock, |s.list|) && Safe(s) && r < |s.readers| && c in s.counter
             && ReaderStep(s, s', r, c)
    ensures Safe(s')
  {
  }

  /** How far a step of reader `r` moves the counter of context `c`. */
  lemma ReaderMoves(s: State, s': State, r: nat, c: Context) returns (n: int)
    requires Shape(s) && r < |s.readers| && c in s.counter && ReaderStep(s, s', r, c)
    ensures s'.readers == s.readers[r := s'.readers[r]] && s'.counter == s.counter[c := s.counter[c] + n]
            && s'.list == s.list
    ensures Share(s'.readers[r], 1, s.list) == Share(s.readers[r], 1, s.list) + n
    ensures s'.orphaned == s.orphaned && s'.writer == s.writer.Miss(s.list, c, n)
  {
    n := s'.counter[c] - s.counter[c];
    assert ReaderOk(s.readers[r], r, s.counter, s.lock);
    assert s'.counter == s.counter[c := s.counter[c] + n];
  }

  lemma ReaderKeepsCounts(s: State, s': State, r: nat, c: Context, n: int)
    requires Shape(s) && r < |s.readers| && c in s.counter
    requires Balanced(s.list, s.counter, s.orphaned, s.readers) && WaitOk(s.writer, s.list, s.counter, s.orphaned)
    requires |s'.readers| == |s.readers| && s'.readers == s.readers[r := s'.readers[r]]
             && s'.counter == s.counter[c := s.counter[c] + n] && s'.list == s.list
    requires Share(s'.readers[r], 1, s.list) == Share(s.readers[r], 1, s.list) + n
    requires s'.orphaned == s.orphaned && s'.writer == s.writer.Miss(s.list, c, n) && Lists(s'.list, s'.counter)
    ensures Balanced(s'.list, s'.counter, s'.orphaned, s'.readers)
            && WaitOk(s'.writer, s'.list, s'.counter, s'.orphaned)
  {
    MoveBalanced(s.list, s.counter, s.orphaned, s.readers, c, n, r, s'.readers[r]);
    MoveMissed(s.writer, s.list, s.counter, s.orphaned, c, n);
  }

  lemma ReaderKeepsScan(s: State, s': State, r: nat, c: Context, n: int)
    requires Shape(s) && r < |s.readers| && c in s.counter && ReaderStep(s, s', r, c)
             && ScanOk(s.writer, s.list, s.counter, s.readers)
    requires |s'.readers| == |s.readers| && s'.readers == s.readers[r := s'.readers[r]]
             && s'.counter == s.counter[c := s.counter[c] + n] && s'.list == s.list
    requires s'.writer == s.writer.Miss(s.list, c, n) && Lists(s'.list, s'.counter)
    ensures ScanOk(s'.writer, s'.list, s'.counter, s'.readers)
  {
    if s.writer.Scan? {
      ReaderScanned(s, s', r, c, n);
      MoveScanned(s.writer, s.list, s.counter, s.readers, c, n, r, s'.readers[r]);
    }
  }

  lemma ReaderKeeps(s: State, s': State, r: nat, c: Context)
    requires Inv(s) && r < |s.readers| && c in s.counter && ReaderStep(s, s', r, c)
    ensures Inv(s')
  {
    ReaderKeepsReaders(s, s', r, c);
    ReaderKeepsWriter(s, s', r, c);
    ReaderKeepsSafe(s, s', r, c);
    var n := ReaderMoves(s, s', r, c);
    ReaderKeepsCounts(s, s', r, c, n);
    ReaderKeepsScan(s, s', r, c, n);
  }

  /** Under a scan a reader may add itself or leave, but not get in. */
  lemma ReaderScanned(s: State, s': State, r: nat, c: Context, n: int)
    requires Shape(s) && s.writer.Scan? && r < |s.readers| && c in s.counter && ReaderStep(s, s', r, c)
             && n == s'.counter[c] - s.counter[c]
    ensures var rest := s.list[s.writer.next..];
            var (p, q) := (s.readers[r], s'.readers[r]);
            Share(q, 1, rest) - Share(p, 1, rest) <= (if c in rest then n
                else 0) <= Share(q, 0, s.list) - Share(p, 0, s.list)
  {
    assert ReaderOk(s.readers[r], r, s.counter, s.lock);
  }

  lemma WriterKeepsReaders(s: State, s': State)
    requires ReadersOk(s.readers, s.counter, s.lock) && WriterOk(s.writer, s.hasWriter, s.lock, |s.list|)
    requires WriterStep(s, s')
    ensures ReadersOk(s'.readers, s'.counter, s'.lock)
    ensures |s'.readers| == |s.readers| && s'.list == s.list && s'.counter == s.counter && s'.orphaned == s.orphaned
  {
  }

  lemma WriterKeepsWriter(s: State, s': State)
    requires WriterOk(s.writer, s.hasWriter, s.lock, |s.list|) && WriterStep(s, s')
    ensures WriterOk(s'.writer, s'.hasWriter, s'.lock, |s'.list|)
  {
  }

  lemma WriterKeepsSafe(s: State, s': State)
    requires Safe(s) && WriterStep(s, s')
    requires s.writer.Scan? && s.writer.next >= |s.list| && s.writer.rd == 0 ==> NoneInside(s.readers)
    ensures Safe(s')
  {
  }

  lemma WakeBalanced(list: seq<Context>, counter: map<Context, int>, orphaned: int, a: seq<Reader>, b: seq<Reader>)
    requires Lists(list, counter) && |a| == |b| && (forall r :: 0 <= r < |a| ==> b[r] == Wake(a[r]))
             && Balanced(list, counter, orphaned, a)
    ensures Balanced(list, counter, orphaned, b)
  {
    CountLess(a, b, 1, list, 1, list);
    CountLess(b, a, 1, list, 1, list);
  }

  lemma ScanStarts(list: seq<Context>, counter: map<Context, int>, orphaned: int, readers: seq<Reader>)
    requires Lists(list, counter) && Balanced(list, counter, orphaned, readers)
    ensures ScanOk(Scan(0, Word(orphaned), orphaned), list, counter, readers)
  {
    assert list[0..] == list;
    CountBound(readers, 1, list);
  }

  lemma ScanAdvances(w: Writer, list: seq<Context>, counter: map<Context, int>, readers: seq<Reader>)
    requires Lists(list, counter) && w.Scan? && w.next < |list| && ScanOk(w, list, counter, readers)
    ensures var n := counter[list[w.next]];
            ScanOk(Scan(w.next + 1, Word(w.rd + Word(n)), w.exact + n), list, counter, readers)
  {
    CountLess(readers, readers, 1, list[w.next + 1..], 1, list[w.next..]);
  }

  /** A finished scan passes its assertion, and finds no reader only if none is inside. */
  lemma ScanEnds(w: Writer, list: seq<Context>, counter: map<Context, int>, readers: seq<Reader>)
    requires Lists(list, counter) && w.Scan? && w.next == |list| && ScanOk(w, list, counter, readers)
             && 2 * |readers| < SIGN
    ensures w.rd < SIGN && (w.rd == 0 ==> NoneInside(readers))
  {
    CountBound(readers, 0, list);
    assert list[w.next..] == [];
    assert w.rd == w.exact;
    if w.rd == 0 {
      forall r | 0 <= r < |readers| ensures !readers[r].Inside? {
        NobodyInside(readers, [], r);
      }
    }
  }

  lemma WordSum(a: int, b: int)
    ensures Word(Word(a) + Word(b)) == Word(a + b)
  {
  }

  lemma WaitAdvances(w: Writer, list: seq<Context>, counter: map<Context, int>, orphaned: int)
    requires Lists(list, counter) && w.WaitScan? && w.next < |list| && WaitOk(w, list, counter, orphaned)
    ensures WaitOk(WaitScan(w.next + 1, Word(w.rd + Word(counter[list[w.next]])), w.missed), list, counter, orphaned)
  {
    var (a, c) := (list[..w.next], list[w.next]);
    assert list[..w.next + 1] == a + [c];
    SumConcat(a, [c], counter);
    WordSum(orphaned + Sum(a, counter) - w.missed, counter[c]);
  }

  lemma WriterKeepsWait(s: State, s': State)
    requires Inv(s) && WriterStep(s, s') && Lists(s'.list, s'.counter)
    ensures WaitOk(s'.writer, s'.list, s'.counter, s'.orphaned)
  {
    if s.writer.WaitScan? && s.writer.next < |s.list| {
      WaitAdvances(s.writer, s.list, s.counter, s.orphaned);
    }
  }

  lemma WriterKeepsBalance(s: State, s': State)
    requires Lists(s.list, s.counter) && Balanced(s.list, s.counter, s.orphaned, s.readers)
    requires WriterStep(s, s') && Lists(s'.list, s'.counter)
    ensures Balanced(s'.list, s'.counter, s'.orphaned, s'.readers)
  {
    if s.writer.UnlockWake? {
      WakeBalanced(s.list, s.counter, s.orphaned, s.readers, s'.readers);
    }
  }

  /** A scan starts with the orphaned readers, or reads the next counter. */
  lemma ScanFrom(s: State, s': State)
    requires WriterStep(s, s') && s'.writer.Scan?
    ensures s'.list == s.list && s'.counter == s.counter && s'.readers == s.readers
    ensures if s.writer.ScanLock? then s'.writer == Scan(0, Word(s.orphaned), s.orphaned)
            else
              && s.writer.Scan? && s.writer.next < |s.list| && s.list[s.writer.next] in s.counter
              && var n := s.counter[s.list[s.writer.next]];
                 s'.writer == Scan(s.writer.next + 1, Word(s.writer.rd + Word(n)), s.writer.exact + n)
  {
  }

  lemma WriterKeepsScan(s: State, s': State)
    requires Lists(s.list, s.counter) && Balanced(s.list, s.counter, s.orphaned, s.readers)
    requires ScanOk(s.writer, s.list, s.counter, s.readers) && WriterStep(s, s') && Lists(s'.list, s'.counter)
    ensures ScanOk(s'.writer, s'.list, s'.counter, s'.readers)
  {
    if s'.writer.Scan? {
      ScanFrom(s, s');
      if s.writer.ScanLock? {
        ScanStarts(s.list, s.counter, s.orphaned, s.readers);
      } else {
        ScanAdvances(s.writer, s.list, s.counter, s.readers);
      }
    }
  }

  lemma WriterKeeps(s: State, s': State)
    requires Inv(s) && WriterStep(s, s')
    ensures Inv(s')
  {
    if s.writer.Scan? && s.writer.next == |s.list| {
      ScanEnds(s.writer, s.list, s.counter, s.readers);
    }
    WriterKeepsReaders(s, s');
    WriterKeepsWriter(s, s');
    WriterKeepsSafe(s, s');
    WriterKeepsBalance(s, s');
    WriterKeepsScan(s, s');
    WriterKeepsWait(s, s');
  }

  lemma LiveSame(readers: seq<Reader>, a: seq<Context>, b: seq<Context>)
    requires forall r :: 0 <= r < |readers| && readers[r].Transient() ==> (readers[r].ctx in a <==> readers[r].ctx in b)
    ensures Count(readers, 1, a) == Count(readers, 1, b)
  {
    CountLess(readers, readers, 1, a, 1, b);
    CountLess(readers, readers, 1, b, 1, a);
  }

  lemma RegisterKeeps(s: State, s': State, c: Context)
    requires Inv(s) && s.lock.Free? && c !in s.list && s' == s.(list := s.list + [c], counter := s.counter[c := 0])
    ensures Inv(s')
  {
    NoDupSnoc(s.list, c);
    SumConcat(s.list, [c], s'.counter);
    SumSame(s.list, s.counter, s'.counter);
    assert forall r :: 0 <= r < |s.readers| ==> ReaderOk(s.readers[r], r, s.counter, s.lock);
    LiveSame(s.readers, s.list, s'.list);
  }

  lemma {:induction false} SumWithout(list: seq<Context>, counter: map<Context, int>, c: Context)
    requires NoDup(list) && c in list && forall d :: d in list ==> d in counter
    ensures forall d :: d in Without(list, c) ==> d in counter - {c}
    ensures Sum(list, counter) == Sum(Without(list, c), counter - {c}) + counter[c]
  {
    WithoutList(list, c);
    if list[0] == c {
      SumSame(list[1..], counter, counter - {c});
    } else {
      SumWithout(list[1..], counter, c);
      assert Without(list, c)[1..] == Without(list[1..], c);
    }
  }

  lemma UnregisterKeeps(s: State, s': State, c: Context)
    requires Inv(s) && s.lock.Free? && Unregistered(s, s', c)
    ensures Inv(s')
  {
    WithoutList(s.list, c);
    SumWithout(s.list, s.counter, c);
    assert forall r :: 0 <= r < |s.readers| ==> ReaderOk(s.readers[r], r, s.counter, s.lock) && !s.readers[r].Uses(c);
    LiveSame(s.readers, s.list, s'.list);
  }

  lemma StepKeeps(s: State, s': State)
    requires Inv(s) && Step(s, s')
    ensures Inv(s')
  {
    if WriterStep(s, s') {
      WriterKeeps(s, s');
    } else if c :| ContextStep(s, s', c) {
      if c !in s.list {
        RegisterKeeps(s, s', c);
      } else {
        UnregisterKeeps(s, s', c);
      }
    } else {
      var r: nat, c :| r < |s.readers| && c in s.counter && ReaderStep(s, s', r, c);
      ReaderKeeps(s, s', r, c);
    }
  }

  lemma {:induction false} RunKeeps(run: seq<State>, i: nat)
    requires IsRun(run) && i < |run|
    ensures Inv(run[i])
  {
    if i == 0 {
      CountNone(run[0].readers, 1, []);
    } else {
      RunKeeps(run, i - 1);
      assert StepAt(run, i);
      StepKeeps(run[i - 1], run[i]);
    }
  }

  /** At no point of any run is a reader inside together with the writer. */
  lemma NoReaderBesideWriter(run: seq<State>, i: nat, r: nat)
    requires IsRun(run) && i < |run| && r < |run[i].readers| && run[i].writer.Writing?
    ensures !run[i].readers[r].Inside?
  {
    RunKeeps(run, i);
  }

  /** No reader is left asleep: one sleeps only while a writer is under way, and the last step of that
      writer's `wrunlock` wakes every sleeper. */
  lemma SleepersWoken(run: seq<State>, i: nat, r: nat)
    requires IsRun(run) && i < |run| && r < |run[i].readers|
    ensures run[i].readers[r].Parked? ==> !run[i].writer.Absent?
    ensures i + 1 < |run| && run[i].writer.UnlockWake? && run[i + 1].writer.Absent? ==>
              r < |run[i + 1].readers| && !run[i + 1].readers[r].Parked?
  {
    RunKeeps(run, i);
    if i + 1 < |run| {
      RunKeeps(run, i + 1);
      assert StepAt(run, i + 1);
    }
  }

  /** The assertion on the sum never fails in the scan that decides. */
  lemma ScanAssertHolds(run: seq<State>, i: nat)
    requires IsRun(run) && i < |run| && run[i].writer.Scan? && run[i].writer.next == |run[i].list|
    ensures run[i].writer.rd < SIGN
  {
    RunKeeps(run, i);
    ScanEnds(run[i].writer, run[i].list, run[i].counter, run[i].readers);
  }

  /** A 32-bit sum `rd` of `counted` readers that lacks `missed` of them */
  predicate Lacks(rd: nat, counted: nat, missed: int) {
    rd == Word(counted - missed) && (-SIGN <= counted - missed < SIGN ==> (rd < SIGN <==> missed <= counted))
  }

  lemma WordSign(n: int)
    requires -SIGN <= n < SIGN
    ensures Word(n) < SIGN <==> n >= 0
  {
  }

  lemma WaitEnds(w: Writer, list: seq<Context>, counter: map<Context, int>, orphaned: int, readers: seq<Reader>)
    requires Lists(list, counter) && w.WaitScan? && w.next == |list| && WaitOk(w, list, counter, orphaned)
    requires Balanced(list, counter, orphaned, readers)
    ensures Lacks(w.rd, Count(readers, 1, list), w.missed)
  {
    assert list[..w.next] == list;
    var sum := Count(readers, 1, list) - w.missed;
    if -SIGN <= sum < SIGN {
      WordSign(sum);
    }
  }

  /** At the end of a scan that waits, the sum is the number of readers that count, less what was missed. The assertion
      holds, within what a word can tell, exactly if the counters already read have not grown by more than those
      readers. */
  lemma WaitScanAssertIff(run: seq<State>, i: nat)
    requires IsRun(run) && i < |run| && run[i].writer.WaitScan? && run[i].writer.next == |run[i].list|
    ensures Lacks(run[i].writer.rd, Count(run[i].readers, 1, run[i].list), run[i].writer.missed)
  {
    RunKeeps(run, i);
    WaitEnds(run[i].writer, run[i].list, run[i].counter, run[i].orphaned, run[i].readers);
  }

  // ---- the lock is given ----

  ghost predicate WriterAt(path: seq<State>, i: nat)
    requires 0 < i < |path|
  {
    WriterStep(path[i - 1], path[i])
  }

  /** The writer goes from `s` to `t` while nobody else moves. */
  ghost predicate Path(path: seq<State>, s: State, t: State) {
    |path| > 0 && path[0] == s && path[|path| - 1] == t && forall i :: 0 < i < |path| ==> WriterAt(path, i)
  }

  /** There is one way only. */
  lemma WriterDeterministic(s: State, a: State, b: State)
    requires WriterStep(s, a) && WriterStep(s, b)
    ensures a == b
  {
  }

  lemma PathGrows(path: seq<State>, s: State, t: State, u: State)
    requires Path(path, s, t) && WriterStep(t, u)
    ensures Path(path + [u], s, u)
  {
    var path' := path + [u];
    forall i | 0 < i < |path'| ensures WriterAt(path', i) {
      assert i < |path| ==> WriterAt(path, i);
    }
  }

  lemma SumNext(list: seq<Context>, counter: map<Context, int>, i: nat)
    requires (forall c :: c in list ==> c in counter) && i < |list|
    ensures Sum(list[i..], counter) == counter[list[i]] + Sum(list[i + 1..], counter)
  {
    assert list[i..][1..] == list[i + 1..];
  }

  /** A waiting scan that finds nobody ends the wait. */
  lemma {:induction false} WaitScanPasses(path: seq<State>, s: State, t: State) returns (path': seq<State>, u: State)
    requires Path(path, s, t) && Lists(t.list, t.counter) && t.writer.WaitScan? && t.writer.next <= |t.list|
    requires t.writer.rd == Word(-Sum(t.list[t.writer.next..], t.counter))
    ensures Path(path', s, u) && u == t.(writer := Announce, lock := Free)
    decreases |t.list| - t.writer.next
  {
    var i := t.writer.next;
    if i == |t.list| {
      u := t.(writer := Announce, lock := Free);
      PathGrows(path, s, t, u);
      path' := path + [u];
    } else {
      var n := t.counter[t.list[i]];
      SumNext(t.list, t.counter, i);
      WordSum(-Sum(t.list[i..], t.counter), n);
      var v := t.(writer := WaitScan(i + 1, Word(t.writer.rd + Word(n)), t.writer.missed));
      PathGrows(path, s, t, v);
      path', u := WaitScanPasses(path + [v], s, v);
    }
  }

  /** A deciding scan that finds nobody lets the writer in. */
  lemma {:induction false} ScanPasses(path: seq<State>, s: State, t: State) returns (path': seq<State>, u: State)
    requires Path(path, s, t) && Lists(t.list, t.counter) && t.writer.Scan? && t.writer.next <= |t.list|
    requires t.writer.rd == Word(-Sum(t.list[t.writer.next..], t.counter))
    ensures Path(path', s, u) && u == t.(writer := Writing, lock := Free)
    decreases |t.list| - t.writer.next
  {
    var i := t.writer.next;
    if i == |t.list| {
      u := t.(writer := Writing, lock := Free);
      PathGrows(path, s, t, u);
      path' := path + [u];
    } else {
      var n := t.counter[t.list[i]];
      SumNext(t.list, t.counter, i);
      WordSum(-Sum(t.list[i..], t.counter), n);
      var v := t.(writer := Scan(i + 1, Word(t.writer.rd + Word(n)), t.writer.exact + n));
      PathGrows(path, s, t, v);
      path', u := ScanPasses(path + [v], s, v);
    }
  }

  /** When no reader counts and the list lock is free, `bdrv_graph_wrlock` runs through to the end. */
  lemma WriterAdmitted(s: State) returns (path: seq<State>, t: State)
    requires Inv(s) && s.writer.Absent? && s.lock.Free? && Count(s.readers, 1, s.list) == 0
    ensures Path(path, s, t) && t == s.(writer := Writing, hasWriter := true)
  {
    assert s.list[0..] == s.list;
    var (a, b) := (s.(writer := Clear), s.(writer := WaitLock, hasWriter := false));
    PathGrows([s], s, s, a);
    PathGrows([s] + [a], s, a, b);
    t := b.(writer := WaitScan(0, Word(b.orphaned), 0), lock := ByWriter);
    PathGrows([s] + [a] + [b], s, b, t);
    path, t := WaitScanPasses([s] + [a] + [b] + [t], s, t);
    var c := t.(writer := ScanLock, hasWriter := true);
    PathGrows(path, s, t, c);
    path, t := path + [c], c.(writer := Scan(0, Word(c.orphaned), c.orphaned), lock := ByWriter);
    PathGrows(path, s, c, t);
    path, t := ScanPasses(path + [t], s, t);
  }

  /** `bdrv_graph_wrunlock` ends with every sleeper woken and no writer announced. */
  lemma WriterLeaves(s: State) returns (path: seq<State>, t: State)
    requires s.writer.Writing? && s.lock.Free?
    ensures Path(path, s, t) && t.writer.Absent? && !t.hasWriter && t.lock.Free? && |t.readers| == |s.readers|
    ensures forall r :: 0 <= r < |s.readers| ==> t.readers[r] == Wake(s.readers[r])
  {
    var a := s.(writer := UnlockLock);
    PathGrows([s], s, s, a);
    var b := a.(writer := UnlockSet, lock := ByWriter);
    PathGrows([s] + [a], s, a, b);
    var c := b.(writer := UnlockWake, hasWriter := false);
    PathGrows([s] + [a] + [b], s, b, c);
    t := c.(writer := Absent,
      readers := seq(|c.readers|, i requires 0 <= i < |c.readers| => Wake(c.readers[i])), lock := Free);
    path := [s] + [a] + [b] + [c] + [t];
    PathGrows([s] + [a] + [b] + [c], s, c, t);
  }

  /** Without a writer a reader gets in by two steps, also one that has just been woken. */
  lemma ReaderAdmitted(s: State, r: nat, c: Context) returns (t: State, u: State)
    requires Inv(s) && s.writer.Absent? && r < |s.readers| && c in s.counter
    requires s.readers[r].Out? || s.readers[r] == Woken(c)
    ensures ReaderStep(s, t, r, c) && r < |t.readers| && c in t.counter && ReaderStep(t, u, r, c)
    ensures u.readers == s.readers[r := Inside] && u.counter == s.counter[c := s.counter[c] + 1]
  {
    t := s.Add(c, 1).At(r, Counted(c));
    u := t.At(r, Inside);
  }

  /** Whoever holds the list lock can go on, except a writer whose sum fails the assertion. */
  lemma HolderMoves(s: State) returns (t: State)
    requires Inv(s) && !s.lock.Free?
    requires s.writer.WaitScan? && s.writer.next == |s.list| ==> s.writer.rd < SIGN
    requires s.lock.ByReader? ==> s.lock.r < |s.readers|
    ensures Step(s, t) && (s.lock.ByReader? ==> t.lock.Free?)
  {
    if s.lock.ByReader? {
      var r := s.lock.r;
      assert ReaderOk(s.readers[r], r, s.counter, s.lock);
      var d := s.readers[r].ctx;
      t := (if s.hasWriter then s.Add(d, -1).At(r, Parked(d)) else s.At(r, Inside)).(lock := Free);
      assert ReaderStep(s, t, r, d);
    } else {
      t := HoldingWriter(s);
    }
  }

  lemma HoldingWriter(s: State) returns (t: State)
    requires Inv(s) && s.lock.ByWriter?
    requires s.writer.WaitScan? && s.writer.next == |s.list| ==> s.writer.rd < SIGN
    ensures WriterStep(s, t)
  {
    match s.writer {
      case WaitScan(i, rd, missed) =>
        t := if i < |s.list| then s.(writer := WaitScan(i + 1, Word(rd + Word(s.counter[s.list[i]])), missed))
             else s.(writer := if rd >= 1 then WaitLock else Announce, lock := Free);
      case Scan(i, rd, exact) =>
        if i < |s.list| {
          var n := s.counter[s.list[i]];
          t := s.(writer := Scan(i + 1, Word(rd + Word(n)), exact + n));
        } else {
          ScanEnds(s.writer, s.list, s.counter, s.readers);
          t := s.(writer := if rd >= 1 then Clear else Writing, lock := Free);
        }
      case UnlockSet => t := s.(writer := UnlockWake, hasWriter := false);
      case UnlockWake =>
        t := s.(writer := Absent,
          readers := seq(|s.readers|, i requires 0 <= i < |s.readers| => Wake(s.readers[i])), lock := Free);
    }
  }

  lemma RunGrows(run: seq<State>, s: State)
    requires IsRun(run) && Step(run[|run| - 1], s)
    ensures IsRun(run + [s])
  {
    var run' := run + [s];
    forall i | 0 < i < |run'| ensures StepAt(run', i) {
      assert i < |run| ==> StepAt(run, i);
    }
  }

  /** A writer is about to wait, with two contexts registered and one reader that is out. */
  function Waiting(a: Context, b: Context): State {
    State([a, b], map[a := 0, b := 0], 0, false, Free, [Out], WaitLock)
  }

  lemma WaitingReached(a: Context, b: Context) returns (run: seq<State>)
    requires a != b
    ensures IsRun(run) && run[|run| - 1] == Waiting(a, b)
  {
    var s0 := State([], map[], 0, false, Free, [Out], Absent);
    var s1 := s0.(list := [] + [a], counter := map[][a := 0]);
    var s2 := s1.(list := [a] + [b], counter := map[a := 0][b := 0]);
    assert ContextStep(s0, s1, a);
    RunGrows([s0], s1);
    assert ContextStep(s1, s2, b);
    RunGrows([s0] + [s1], s2);
    run := [s0] + [s1] + [s2];
    RunGrows(run, s2.(writer := Clear));
    run := run + [s2.(writer := Clear)];
    RunGrows(run, s2.(writer := WaitLock));
    run := run + [s2.(writer := WaitLock)];
    assert [a] + [b] == [a, b] && map[a := 0][b := 0] == map[a := 0, b := 0];
  }

  lemma ReaderGrows(run: seq<State>, s: State, s': State, c: Context)
    requires IsRun(run) && run[|run| - 1] == s && |s.readers| == 1 && c in s.counter && ReaderStep(s, s', 0, c)
    ensures IsRun(run + [s'])
  {
    RunGrows(run, s');
  }

  /** The only reader comes on one context and goes on another. */
  lemma ReaderPasses(run: seq<State>, s: State, a: Context, b: Context) returns (run': seq<State>)
    requires IsRun(run) && run[|run| - 1] == s && !s.hasWriter && s.readers == [Out] && a in s.counter && b in s.counter
    ensures IsRun(run') && run'[|run'| - 1] == s.Add(a, 1).Add(b, -1)
  {
    var t := s.Add(a, 1);
    ReaderGrows(run, s, t.(readers := [Counted(a)]), a);
    run' := run + [t.(readers := [Counted(a)])];
    ReaderGrows(run', t.(readers := [Counted(a)]), t.(readers := [Inside]), a);
    run' := run' + [t.(readers := [Inside])];
    ReaderGrows(run', t.(readers := [Inside]), t.Add(b, -1), b);
    run' := run' + [t.Add(b, -1)];
  }

  /** A reader that enters on the context already read and leaves on the one still to be read makes the assertion
      fail. */
  lemma WaitScanAssertFailsExample(a: Context, b: Context) returns (run: seq<State>)
    requires a != b
    ensures IsRun(run)
    ensures var s := run[|run| - 1]; s.writer.WaitScan? && s.writer.next == |s.list| && s.writer.rd >= SIGN
  {
    run := WaitingReached(a, b);
    var s := Waiting(a, b).(writer := WaitScan(0, 0, 0), lock := ByWriter);
    RunGrows(run, s);
    var t := s.(writer := WaitScan(1, 0, 0));
    RunGrows(run + [s], t);
    run := ReaderPasses(run + [s] + [t], t, a, b);
    var u := t.Add(a, 1).Add(b, -1);
    WordSign(-1);
    RunGrows(run, u.(writer := WaitScan(2, Word(0 + Word(-1)), 1)));
    run := run + [u.(writer := WaitScan(2, Word(0 + Word(-1)), 1))];
  }
}
