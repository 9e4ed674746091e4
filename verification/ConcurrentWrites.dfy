/** Writes to one node that are in flight together. Padded ones read the bytes around their own and write them back;
    reading and writing is byte by byte, in every interleaving that the tracking of requests allows. */
module ConcurrentWrites {
  import opened Alignment
  import opened DiskBytes
  import DiskRequests
  import Tracked = TrackedRequests

  type Id = nat
  type Disk = nat -> Byte

  /** A write of `payload` at `offset`, which the driver gets as `size` bytes from `start` on. `kept` are the bytes of
      the padding that have been read, `done` the places that have been written. */
  datatype Write = Write(offset: nat, payload: Bytes, start: nat, size: nat, kept: map<nat, Byte>, done: set<nat>) {
    predicate Asks(i: nat) {
      offset <= i < offset + |payload|
    }

    predicate Spans(i: nat) {
      start <= i < start + size
    }

    predicate Padded() {
      start < offset || offset + |payload| < start + size
    }

    predicate Started() {
      kept != map[] || done != {}
    }

    /** All of the padding has been read. */
    ghost predicate Filled() {
      forall i: nat :: Spans(i) && !Asks(i) ==> i in kept
    }

    predicate Puts(i: nat) {
      i in done && Asks(i)
    }

    function ByteFor(i: nat): Byte
      requires Asks(i) || i in kept
    {
      if Asks(i) then payload[i - offset] else kept[i]
    }
  }

  /** `ideal` is the disk that all writes would leave if they wrote nothing but their payload, and `log` holds the
      writes that have ended, in that order; no step looks at either. */
  datatype World = World(queue: Tracked.Queue, writes: map<Id, Write>, disk: Disk, ideal: Disk, log: seq<Write>)

  datatype Move =
    | Submit(id: Id, offset: nat, payload: Bytes, align: nat)
    | Track(m: Tracked.Move)       // other requests; and looking again, waking and serialising of these writes
    | ReadByte(id: Id, i: nat)     // bdrv_padding_rmw_read
    | WriteByte(id: Id, i: nat)    // bdrv_aligned_pwritev
    | Finish(id: Id)               // with or without an error

  /** The whole blocks around a request */
  function Around(offset: nat, payload: Bytes, align: nat): (w: Write)
    requires align > 0
    ensures w.offset == offset && w.payload == payload && w.kept == map[] && w.done == {}
    ensures w.start <= offset && offset + |payload| <= w.start + w.size
  {
    DownIs(offset, align);
    DownGreatest(offset, 0, align);
    UpIs(offset + |payload|, align);
    var start := Down(offset, align);
    Write(offset, payload, start, Up(offset + |payload|, align) - start, map[], {})
  }

  /** How a write enters the list of tracked requests */
  function Entry(id: Id, w: Write, align: nat): Tracked.Move {
    Tracked.Move(id,
      if w.Padded() then Tracked.BeginSerialising(w.start, w.size, align) else Tracked.Begin(w.start, w.size))
  }

  predicate Running(w: World, id: Id) {
    id in w.writes && Tracked.Running(w.queue.reqs, id)
  }

  ghost predicate Enabled(w: World, m: Move) {
    && Tracked.Listed(w.queue.list, w.queue.reqs)
    && match m
       case Submit(id, offset, payload, align) =>
         Tracked.Fresh(w.queue.reqs, id) && id !in w.writes && payload != [] && align > 0
       case Track(t) =>
         && Tracked.Enabled(w.queue, t)
         && (t.id in w.writes ==>
               t.action.Recheck? || t.action.Resume? || (t.action.MakeSerialising? && !w.writes[t.id].Started()))
       case ReadByte(id, i) =>
         Running(w, id) && (var x := w.writes[id]; x.Spans(i) && !x.Asks(i) && i !in x.kept && x.done == {})
       case WriteByte(id, i) =>
         Running(w, id) && (var x := w.writes[id]; x.Filled() && x.Spans(i) && i !in x.done)
       case Finish(id) => Running(w, id)
  }

  function Put(d: Disk, i: nat, b: Byte): Disk {
    (j: nat) => if j == i then b else d(j)
  }

  ghost function Apply(w: World, m: Move): World
    requires Enabled(w, m)
  {
    match m
    case Submit(id, offset, payload, align) =>
      var x := Around(offset, payload, align);
      w.(queue := Tracked.Apply(w.queue, Entry(id, x, align)), writes := w.writes[id := x])
    case Track(t) => w.(queue := Tracked.Apply(w.queue, t))
    case ReadByte(id, i) =>
      var x := w.writes[id];
      w.(writes := w.writes[id := x.(kept := x.kept[i := w.disk(i)])])
    case WriteByte(id, i) =>
      var x := w.writes[id];
      w.(writes := w.writes[id := x.(done := x.done + {i})], disk := Put(w.disk, i, x.ByteFor(i)),
         ideal := if x.Asks(i) then Put(w.ideal, i, x.ByteFor(i)) else w.ideal)
    case Finish(id) =>
      w.(queue := Tracked.Apply(w.queue, Tracked.Move(id, Tracked.End)), writes := w.writes - {id},
         log := w.log + [w.writes[id]])
  }

  ghost predicate Legal(w: World, moves: seq<Move>)
    decreases |moves|
  {
    moves == [] || (Enabled(w, moves[0]) && Legal(Apply(w, moves[0]), moves[1..]))
  }

  ghost function After(w: World, moves: seq<Move>): World
    requires Legal(w, moves)
    decreases |moves|
  {
    if moves == [] then w else After(Apply(w, moves[0]), moves[1..])
  }

  function Fresh(d: Disk): World {
    World(Tracked.EMPTY, map[], d, d, [])
  }

  // ---- the invariant ----

  /** The tracked request of a write, and how far it may have got */
  ghost predicate RequestOk(r: Tracked.Request, x: Write) {
    && r.offset == x.start && r.bytes == x.size && x.start <= x.offset && x.offset + |x.payload| <= x.start + x.size
    && (x.Padded() ==> r.serialising) && (x.Started() ==> r.waitingFor.None?)
  }

  ghost predicate BytesOk(x: Write, disk: Disk) {
    && (forall i :: i in x.kept ==> x.Spans(i) && !x.Asks(i) && disk(i) == x.kept[i])
    && (forall i :: i in x.done ==> x.Spans(i)) && (x.done != {} ==> x.Filled())
  }

  ghost predicate WriteOk(w: World, id: Id) {
    id in w.writes && id in w.queue.reqs && RequestOk(w.queue.reqs[id], w.writes[id]) && BytesOk(w.writes[id], w.disk)
  }

  ghost predicate Same(a: Disk, b: Disk) {
    forall i :: a(i) == b(i)
  }

  ghost predicate Inv(w: World) {
    Tracked.Inv(w.queue) && (forall id :: id in w.writes ==> WriteOk(w, id)) && Same(w.disk, w.ideal)
  }

  /** Two writes that both run have no place in common if one of them is padded. */
  lemma Apart(q: Tracked.Queue, a: Id, b: Id, x: Write, y: Write, i: nat)
    requires Tracked.Inv(q) && a != b && Tracked.Running(q.reqs, a) && Tracked.Running(q.reqs, b)
    requires RequestOk(q.reqs[a], x) && RequestOk(q.reqs[b], y) && x.Padded() && x.Spans(i)
    ensures !y.Spans(i)
  {
    assert Tracked.OneWaits(q.reqs[a], q.reqs[b]);
    assert q.reqs[a].Covers() && q.reqs[b].Covers();
  }

  lemma EntryOk(q: Tracked.Queue, id: Id, x: Write, align: nat)
    requires Tracked.Inv(q) && Tracked.Fresh(q.reqs, id) && align > 0 && !x.Started()
    requires x.start <= x.offset && x.offset + |x.payload| <= x.start + x.size
    ensures Tracked.Enabled(q, Entry(id, x, align))
    ensures var q' := Tracked.Apply(q, Entry(id, x, align)); id in q'.reqs && RequestOk(q'.reqs[id], x)
  {
  }

  lemma SubmitKeeps(w: World, id: Id, offset: nat, payload: Bytes, align: nat)
    requires Inv(w) && Enabled(w, Submit(id, offset, payload, align))
    ensures Inv(Apply(w, Submit(id, offset, payload, align)))
  {
    var x := Around(offset, payload, align);
    var m := Entry(id, x, align);
    EntryOk(w.queue, id, x, align);
    Tracked.ApplyKeeps(w.queue, m);
    var w' := Apply(w, Submit(id, offset, payload, align));
    forall k | k in w'.writes ensures WriteOk(w', k) {
      if k != id {
        assert WriteOk(w, k);
        Tracked.RangeFixed(w.queue, m, k);
      }
    }
  }

  /** What a move of the tracked requests leaves of the request of a write */
  lemma TrackOk(q: Tracked.Queue, t: Tracked.Move, id: Id, x: Write)
    requires Tracked.Inv(q) && Tracked.Enabled(q, t) && id in q.reqs && RequestOk(q.reqs[id], x)
    requires t.id == id ==> t.action.Recheck? || t.action.Resume? || (t.action.MakeSerialising? && !x.Started())
    ensures var q' := Tracked.Apply(q, t); id in q'.reqs && RequestOk(q'.reqs[id], x)
  {
    if t.id == id && t.action.Recheck? {
      Tracked.RecheckIdle(q, id);
    } else if t.id != id || t.action.Resume? {
      Tracked.RangeFixed(q, t, id);
    }
  }

  lemma TrackKeeps(w: World, t: Tracked.Move)
    requires Inv(w) && Enabled(w, Track(t))
    ensures Inv(Apply(w, Track(t)))
  {
    Tracked.ApplyKeeps(w.queue, t);
    var w' := Apply(w, Track(t));
    forall k | k in w'.writes ensures WriteOk(w', k) {
      assert WriteOk(w, k);
      TrackOk(w.queue, t, k, w.writes[k]);
    }
  }

  lemma ReadKeeps(w: World, id: Id, i: nat)
    requires Inv(w) && Enabled(w, ReadByte(id, i))
    ensures Inv(Apply(w, ReadByte(id, i)))
  {
    var w' := Apply(w, ReadByte(id, i));
    forall k | k in w'.writes ensures WriteOk(w', k) {
      assert WriteOk(w, k);
    }
  }

  /** Nobody has kept a byte that another one writes. */
  lemma NotKept(w: World, id: Id, i: nat, k: Id)
    requires Inv(w) && Enabled(w, WriteByte(id, i)) && k in w.writes && k != id
    ensures i !in w.writes[k].kept
  {
    assert WriteOk(w, id) && WriteOk(w, k);
    if i in w.writes[k].kept {
      Apart(w.queue, k, id, w.writes[k], w.writes[id], i);
    }
  }

  lemma PutElsewhere(x: Write, d: Disk, i: nat, b: Byte)
    requires BytesOk(x, d) && i !in x.kept
    ensures BytesOk(x, Put(d, i, b))
  {
  }

  lemma PutOwn(x: Write, d: Disk, i: nat)
    requires BytesOk(x, d) && x.Filled() && x.Spans(i)
    ensures BytesOk(x.(done := x.done + {i}), Put(d, i, x.ByteFor(i)))
  {
    var y := x.(done := x.done + {i});
    assert forall j: nat :: y.Spans(j) == x.Spans(j) && y.Asks(j) == x.Asks(j);
  }

  /** A byte of the padding is written back as it is. */
  lemma PutSame(x: Write, d: Disk, e: Disk, i: nat)
    requires BytesOk(x, d) && x.Filled() && x.Spans(i) && Same(d, e)
    ensures Same(Put(d, i, x.ByteFor(i)), if x.Asks(i) then Put(e, i, x.ByteFor(i)) else e)
  {
  }

  lemma WriteKeeps(w: World, id: Id, i: nat)
    requires Inv(w) && Enabled(w, WriteByte(id, i))
    ensures Inv(Apply(w, WriteByte(id, i)))
  {
    var w' := Apply(w, WriteByte(id, i));
    var x := w.writes[id];
    assert WriteOk(w, id);
    PutSame(x, w.disk, w.ideal, i);
    forall k | k in w'.writes ensures WriteOk(w', k) {
      assert WriteOk(w, k);
      if k == id {
        PutOwn(x, w.disk, i);
      } else {
        NotKept(w, id, i, k);
        PutElsewhere(w.writes[k], w.disk, i, x.ByteFor(i));
      }
    }
  }

  lemma FinishKeeps(w: World, id: Id)
    requires Inv(w) && Enabled(w, Finish(id))
    ensures Inv(Apply(w, Finish(id)))
  {
    var m := Tracked.Move(id, Tracked.End);
    Tracked.ApplyKeeps(w.queue, m);
    var w' := Apply(w, Finish(id));
    forall k | k in w'.writes ensures WriteOk(w', k) {
      assert WriteOk(w, k);
      Tracked.RangeFixed(w.queue, m, k);
    }
  }

  lemma ApplyKeeps(w: World, m: Move)
    requires Inv(w) && Enabled(w, m)
    ensures Inv(Apply(w, m))
  {
    match m {
      case Submit(id, offset, payload, align) => SubmitKeeps(w, id, offset, payload, align);
      case Track(t) => TrackKeeps(w, t);
      case ReadByte(id, i) => ReadKeeps(w, id, i);
      case WriteByte(id, i) => WriteKeeps(w, id, i);
      case Finish(id) => FinishKeeps(w, id);
    }
  }

  lemma {:induction false} LegalKeeps(w: World, moves: seq<Move>)
    requires Inv(w) && Legal(w, moves)
    ensures Inv(After(w, moves))
    decreases |moves|
  {
    if moves != [] {
      ApplyKeeps(w, moves[0]);
      LegalKeeps(Apply(w, moves[0]), moves[1..]);
    }
  }

  /** In every run the padding that is written back makes no difference: the disk is what it would be if each write had
      written its own bytes only, in the same order. No update is lost. */
  lemma WriteBackInvisible(d: Disk, moves: seq<Move>, i: nat)
    requires Legal(Fresh(d), moves)
    ensures After(Fresh(d), moves).disk(i) == After(Fresh(d), moves).ideal(i)
  {
    Tracked.EmptyOk();
    LegalKeeps(Fresh(d), moves);
  }

  // ---- a serial order ----

  /** Writes that need no padding are not kept apart by the tracking, so whoever sends them must not let them
      overlap. */
  ghost predicate Considerate(w: World, m: Move) {
    m.Submit? && m.align > 0 ==>
      var x := Around(m.offset, m.payload, m.align);
      !x.Padded() ==> forall k :: k in w.writes && !w.writes[k].Padded() ==> Disjoint(w.writes[k], x)
  }

  predicate Disjoint(x: Write, y: Write) {
    x.start + x.size <= y.start || y.start + y.size <= x.start
  }

  ghost predicate AllConsiderate(w: World, moves: seq<Move>)
    requires Legal(w, moves)
    decreases |moves|
  {
    moves == [] || (Considerate(w, moves[0]) && AllConsiderate(Apply(w, moves[0]), moves[1..]))
  }

  /** Byte `i` after the writes of `log`, one after the other */
  function SerialAt(d: Disk, log: seq<Write>, i: nat): Byte {
    if log == [] then d(i)
    else
      var x := log[|log| - 1];
      if x.Puts(i) then x.ByteFor(i) else SerialAt(d, log[..|log| - 1], i)
  }

  ghost predicate PlainApart(writes: map<Id, Write>) {
    forall a, b :: a in writes && b in writes && a != b && !writes[a].Padded() && !writes[b].Padded() ==>
      Disjoint(writes[a], writes[b])
  }

  /** Somebody in flight has put byte `i`. */
  ghost predicate PutBy(w: World, id: Id, i: nat) {
    id in w.writes && w.writes[id].Puts(i)
  }

  /** A byte is what a write in flight has put there, or what the writes that have ended have left. */
  ghost predicate ByteSerial(w: World, d: Disk, i: nat) {
    && (forall id :: PutBy(w, id, i) ==> w.ideal(i) == w.writes[id].ByteFor(i))
    && ((forall id :: !PutBy(w, id, i)) ==> w.ideal(i) == SerialAt(d, w.log, i))
  }

  ghost predicate Serial(w: World, d: Disk) {
    PlainApart(w.writes) && forall i :: ByteSerial(w, d, i)
  }

  /** No two writes in flight have started on the same place. */
  lemma Exclusive(w: World, a: Id, b: Id, i: nat)
    requires Inv(w) && PlainApart(w.writes) && a != b && Running(w, a) && Running(w, b)
    ensures !(w.writes[a].Spans(i) && w.writes[b].Spans(i))
  {
    var (x, y) := (w.writes[a], w.writes[b]);
    assert WriteOk(w, a) && WriteOk(w, b);
    if x.Padded() && x.Spans(i) {
      Apart(w.queue, a, b, x, y, i);
    } else if y.Padded() && y.Spans(i) {
      Apart(w.queue, b, a, y, x, i);
    }
  }

  /** The only one that can have put a byte is the one that is at work there. */
  lemma OnlyOne(w: World, id: Id, k: Id, i: nat)
    requires Inv(w) && PlainApart(w.writes) && Running(w, id) && w.writes[id].Spans(i) && k != id
    ensures !PutBy(w, k, i)
  {
    if PutBy(w, k, i) {
      assert WriteOk(w, k);
      Exclusive(w, id, k, i);
    }
  }

  /** What write `id` has put is the same in both. */
  ghost predicate PutsSame(w: World, w': World, id: Id) {
    (id in w.writes && w.writes[id].done != {}) || (id in w'.writes && w'.writes[id].done != {}) ==>
      id in w.writes && id in w'.writes && w.writes[id] == w'.writes[id]
  }

  /** Moves that put nothing and end nothing */
  lemma NothingPut(w: World, w': World, d: Disk)
    requires Serial(w, d) && w'.ideal == w.ideal && w'.log == w.log && PlainApart(w'.writes)
    requires forall id :: PutsSame(w, w', id)
    ensures Serial(w', d)
  {
    forall i ensures ByteSerial(w', d, i) {
      assert ByteSerial(w, d, i);
      forall id ensures PutBy(w', id, i) <==> PutBy(w, id, i)
        ensures PutBy(w, id, i) ==> w'.writes[id] == w.writes[id]
      {
        assert PutsSame(w, w', id);
      }
    }
  }

  lemma SubmitSerial(w: World, d: Disk, m: Move)
    requires Serial(w, d) && m.Submit? && Enabled(w, m) && Considerate(w, m)
    ensures Serial(Apply(w, m), d)
  {
    NothingPut(w, Apply(w, m), d);
  }

  lemma ReadSerial(w: World, d: Disk, id: Id, i: nat)
    requires Serial(w, d) && Enabled(w, ReadByte(id, i))
    ensures Serial(Apply(w, ReadByte(id, i)), d)
  {
    NothingPut(w, Apply(w, ReadByte(id, i)), d);
  }

  lemma TrackSerial(w: World, d: Disk, t: Tracked.Move)
    requires Serial(w, d) && Enabled(w, Track(t))
    ensures Serial(Apply(w, Track(t)), d)
  {
    NothingPut(w, Apply(w, Track(t)), d);
  }

  /** Who has put byte `j` after `id` has written byte `i` */
  lemma PutNext(w: World, id: Id, i: nat, k: Id, j: nat)
    requires Enabled(w, WriteByte(id, i))
    ensures var w' := Apply(w, WriteByte(id, i));
            && (PutBy(w', k, j) <==> PutBy(w, k, j) || (k == id && j == i && w.writes[id].Asks(i)))
            && (PutBy(w', k, j) ==> w'.writes[k].ByteFor(j) == w.writes[k].ByteFor(j))
  {
  }

  lemma WriteElsewhere(w: World, d: Disk, id: Id, i: nat, j: nat)
    requires ByteSerial(w, d, j) && Enabled(w, WriteByte(id, i)) && j != i
    ensures ByteSerial(Apply(w, WriteByte(id, i)), d, j)
  {
    forall k {
      PutNext(w, id, i, k, j);
    }
  }

  lemma WriteHere(w: World, d: Disk, id: Id, i: nat)
    requires Inv(w) && PlainApart(w.writes) && ByteSerial(w, d, i) && Enabled(w, WriteByte(id, i))
    ensures ByteSerial(Apply(w, WriteByte(id, i)), d, i)
  {
    var w' := Apply(w, WriteByte(id, i));
    PutNext(w, id, i, id, i);
    forall k | k != id ensures !PutBy(w, k, i) && !PutBy(w', k, i) {
      PutNext(w, id, i, k, i);
      OnlyOne(w, id, k, i);
    }
    assert forall k :: !PutBy(w, k, i);
  }

  lemma ApartKept(writes: map<Id, Write>, id: Id, x: Write)
    requires PlainApart(writes) && id in writes && x.start == writes[id].start && x.size == writes[id].size
    requires x.Padded() == writes[id].Padded()
    ensures PlainApart(writes[id := x])
  {
  }

  lemma WriteSerial(w: World, d: Disk, id: Id, i: nat)
    requires Inv(w) && Serial(w, d) && Enabled(w, WriteByte(id, i))
    ensures Serial(Apply(w, WriteByte(id, i)), d)
  {
    var x := w.writes[id];
    ApartKept(w.writes, id, x.(done := x.done + {i}));
    forall j ensures ByteSerial(Apply(w, WriteByte(id, i)), d, j) {
      if j == i {
        WriteHere(w, d, id, i);
      } else {
        WriteElsewhere(w, d, id, i, j);
      }
    }
  }

  lemma FinishSerial(w: World, d: Disk, id: Id)
    requires Inv(w) && Serial(w, d) && Enabled(w, Finish(id))
    ensures Serial(Apply(w, Finish(id)), d)
  {
    var w' := Apply(w, Finish(id));
    var x := w.writes[id];
    assert w'.log[..|w.log|] == w.log;
    forall i ensures ByteSerial(w', d, i) {
      assert ByteSerial(w, d, i);
      assert forall k :: PutBy(w', k, i) <==> k != id && PutBy(w, k, i);
      if x.Puts(i) {
        assert WriteOk(w, id) && PutBy(w, id, i);
        forall k | k != id ensures !PutBy(w, k, i) {
          OnlyOne(w, id, k, i);
        }
      }
    }
  }

  lemma ApplySerial(w: World, d: Disk, m: Move)
    requires Inv(w) && Serial(w, d) && Enabled(w, m) && Considerate(w, m)
    ensures Serial(Apply(w, m), d)
  {
    match m {
      case Submit(_, _, _, _) => SubmitSerial(w, d, m);
      case Track(t) => TrackSerial(w, d, t);
      case ReadByte(id, i) => ReadSerial(w, d, id, i);
      case WriteByte(id, i) => WriteSerial(w, d, id, i);
      case Finish(id) => FinishSerial(w, d, id);
    }
  }

  lemma {:induction false} LegalSerial(w: World, d: Disk, moves: seq<Move>)
    requires Inv(w) && Serial(w, d) && Legal(w, moves) && AllConsiderate(w, moves)
    ensures Inv(After(w, moves)) && Serial(After(w, moves), d)
    decreases |moves|
  {
    if moves != [] {
      ApplyKeeps(w, moves[0]);
      ApplySerial(w, d, moves[0]);
      LegalSerial(Apply(w, moves[0]), d, moves[1..]);
    }
  }

  /** In every run, once nothing is in flight, the disk is what the writes leave when they are done one after the
      other, in the order in which they have ended; of one that failed, the part that it had written. */
  lemma SerialOrder(d: Disk, moves: seq<Move>, i: nat)
    requires Legal(Fresh(d), moves) && AllConsiderate(Fresh(d), moves) && After(Fresh(d), moves).writes == map[]
    ensures var w := After(Fresh(d), moves); w.disk(i) == SerialAt(d, w.log, i)
  {
    Tracked.EmptyOk();
    var w0 := Fresh(d);
    forall j ensures ByteSerial(w0, d, j) {
      assert forall id :: !PutBy(w0, id, j);
    }
    LegalSerial(w0, d, moves);
    var w := After(w0, moves);
    assert ByteSerial(w, d, i);
    assert forall id :: !PutBy(w, id, i);
  }

  ghost predicate AllWhole(log: seq<Write>) {
    forall k, i: nat :: 0 <= k < |log| && log[k].Asks(i) ==> i in log[k].done
  }

  function DiskOf(c: Content): Disk {
    (j: nat) => At(c, j)
  }

  /** The disk after unaligned writes, each alone */
  function Alone(c: Content, log: seq<Write>): Content {
    if log == [] then c
    else
      var x := log[|log| - 1];
      DiskRequests.Written(Alone(c, log[..|log| - 1]), x.offset, x.payload, x.start + x.size)
  }

  lemma {:induction false} SerialIsAlone(c: Content, log: seq<Write>, i: nat)
    requires AllWhole(log)
    ensures SerialAt(DiskOf(c), log, i) == At(Alone(c, log), i)
  {
    if log != [] {
      var (rest, x) := (log[..|log| - 1], log[|log| - 1]);
      assert forall k :: 0 <= k < |rest| ==> rest[k] == log[k];
      SerialIsAlone(c, rest, i);
      DiskRequests.WrittenMeans(Alone(c, rest), x.offset, x.payload, x.start + x.size, i);
      assert x.Asks(i) ==> i in log[|log| - 1].done;
    }
  }

  /** Unaligned writes that are in flight together leave what they leave when each has the disk to itself, in the
      order in which they have ended. */
  lemma ConcurrentAsAlone(c: Content, moves: seq<Move>, i: nat)
    requires Legal(Fresh(DiskOf(c)), moves) && AllConsiderate(Fresh(DiskOf(c)), moves)
    requires var w := After(Fresh(DiskOf(c)), moves); w.writes == map[] && AllWhole(w.log)
    ensures var w := After(Fresh(DiskOf(c)), moves); w.disk(i) == At(Alone(c, w.log), i)
  {
    SerialOrder(DiskOf(c), moves, i);
    SerialIsAlone(c, After(Fresh(DiskOf(c)), moves).log, i);
  }

  // ---- a write that runs can go through ----

  /** Nothing has changed but how far write `id` has got. */
  ghost predicate Further(w: World, u: World, id: Id)
    requires id in w.writes
  {
    && u.queue == w.queue && u.log == w.log && u.writes.Keys == w.writes.Keys
    && (forall k :: k in w.writes && k != id ==> u.writes[k] == w.writes[k])
    && u.writes[id] == w.writes[id].(kept := u.writes[id].kept, done := u.writes[id].done)
  }

  /** One move before a run */
  lemma Precede(w: World, m: Move, rest: seq<Move>)
    requires Enabled(w, m) && Legal(Apply(w, m), rest)
    ensures Legal(w, [m] + rest) && After(w, [m] + rest) == After(Apply(w, m), rest)
  {
    assert ([m] + rest)[1..] == rest;
  }

  /** The first move of a run, and the rest */
  lemma Parted(w: World, moves: seq<Move>) returns (v: World)
    requires Legal(w, moves) && moves != []
    ensures Enabled(w, moves[0]) && v == Apply(w, moves[0]) && Legal(v, moves[1..])
    ensures After(w, moves) == After(v, moves[1..])
  {
    v := Apply(w, moves[0]);
  }

  lemma Regroup(a: seq<Move>, b: seq<Move>)
    ensures a + b == if a == [] then b else [a[0]] + (a[1..] + b)
  {
  }

  lemma {:induction false} Then(w: World, a: seq<Move>, u: World, b: seq<Move>, t: World)
    requires Legal(w, a) && After(w, a) == u && Legal(u, b) && After(u, b) == t
    ensures Legal(w, a + b) && After(w, a + b) == t
    decreases |a|
  {
    Regroup(a, b);
    if a != [] {
      var v := Parted(w, a);
      Then(v, a[1..], u, b, t);
      Precede(w, a[0], a[1..] + b);
    }
  }

  /** It reads its padding from place `j` on. */
  lemma {:induction false} ReadsOn(w: World, id: Id, j: nat) returns (moves: seq<Move>)
    requires Tracked.Listed(w.queue.list, w.queue.reqs) && Running(w, id) && w.writes[id].done == {}
    requires var x := w.writes[id];
             x.start <= j <= x.start + x.size && forall i: nat :: x.start <= i < j && !x.Asks(i) ==> i in x.kept
    ensures Legal(w, moves) && Further(w, After(w, moves), id)
    ensures After(w, moves).writes[id].Filled() && After(w, moves).writes[id].done == {}
    decreases w.writes[id].start + w.writes[id].size - j
  {
    var x := w.writes[id];
    if j == x.start + x.size {
      moves := [];
    } else if x.Asks(j) || j in x.kept {
      moves := ReadsOn(w, id, j + 1);
    } else {
      var v := Apply(w, ReadByte(id, j));
      var rest := ReadsOn(v, id, j + 1);
      Precede(w, ReadByte(id, j), rest);
      moves := [ReadByte(id, j)] + rest;
    }
  }

  /** It writes from place `j` on. */
  lemma {:induction false} WritesOn(w: World, id: Id, j: nat) returns (moves: seq<Move>)
    requires Tracked.Listed(w.queue.list, w.queue.reqs) && Running(w, id) && w.writes[id].Filled()
    requires var x := w.writes[id];
             x.start <= j <= x.start + x.size && forall i: nat :: x.start <= i < j ==> i in x.done
    ensures Legal(w, moves) && Further(w, After(w, moves), id)
    ensures var x := After(w, moves).writes[id]; forall i: nat :: x.Spans(i) ==> i in x.done
    decreases w.writes[id].start + w.writes[id].size - j
  {
    var x := w.writes[id];
    if j == x.start + x.size {
      moves := [];
    } else if j in x.done {
      moves := WritesOn(w, id, j + 1);
    } else {
      var v := Apply(w, WriteByte(id, j));
      StillFilled(x, j);
      var rest := WritesOn(v, id, j + 1);
      Precede(w, WriteByte(id, j), rest);
      moves := [WriteByte(id, j)] + rest;
    }
  }

  lemma StillFilled(x: Write, j: nat)
    requires x.Filled()
    ensures x.(done := x.done + {j}).Filled()
  {
    var y := x.(done := x.done + {j});
    assert forall i: nat :: y.Spans(i) == x.Spans(i) && y.Asks(i) == x.Asks(i);
  }

  /** The request as it was sent, with all places written */
  ghost predicate WholeOf(y: Write, x: Write) {
    y == x.(kept := y.kept, done := y.done) && forall i: nat :: y.Spans(i) ==> i in y.done
  }

  /** A write that runs and has not begun can go through to its end, with all its bytes written. */
  lemma WriteGoesThrough(w: World, id: Id) returns (moves: seq<Move>, y: Write)
    requires Inv(w) && Running(w, id) && !w.writes[id].Started()
    ensures Legal(w, moves) && WholeOf(y, w.writes[id])
    ensures var u := After(w, moves); u.log == w.log + [y] && u.writes.Keys == w.writes.Keys - {id}
  {
    var x := w.writes[id];
    var a := ReadsOn(w, id, x.start);
    var v := After(w, a);
    var b := WritesOn(v, id, x.start);
    var u := After(v, b);
    Then(w, a, v, b, u);
    y := u.writes[id];
    moves := a + b;
    var t := Apply(u, Finish(id));
    assert Legal(t, []);
    Precede(u, Finish(id), []);
    Then(w, moves, u, [Finish(id)] + [], t);
    moves := moves + ([Finish(id)] + []);
  }

  /** Any write to a disk at rest runs at once, and can go through. */
  lemma FirstWriteRuns(d: Disk, id: Id, offset: nat, payload: Bytes, align: nat) returns (moves: seq<Move>)
    requires payload != [] && align > 0
    ensures Legal(Fresh(d), moves)
    ensures var u := After(Fresh(d), moves);
            && u.writes == map[] && AllWhole(u.log) && |u.log| == 1
            && u.log[0].offset == offset && u.log[0].payload == payload
  {
    Tracked.EmptyOk();
    var w := Fresh(d);
    var m := Submit(id, offset, payload, align);
    EntryOk(w.queue, id, Around(offset, payload, align), align);
    ApplyKeeps(w, m);
    var v := Apply(w, m);
    var rest, y := WriteGoesThrough(v, id);
    Precede(w, m, rest);
    moves := [m] + rest;
  }
}
