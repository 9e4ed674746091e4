/** The byte ring between the audio thread and the AAudio callback: one writer, one reader, every interleaving byte by
    byte. */
module AudioRing {
  import opened Alignment
  import opened DiskBytes

  const U32 := 0x1_0000_0000

  /** The writer copies `data`, of which `done` bytes are in the ring. */
  datatype Writer = Resting | Writing(data: Bytes, done: nat)

  /** The callback was asked for `want` bytes and found `avail`; `out` it has copied so far. `seen` is how many bytes
      had been published when it looked, which no step uses. */
  datatype Reader = Waiting | Reading(want: nat, avail: nat, out: Bytes, seen: nat)

  /** `readPos` and `writePos` are 32-bit words. `accepted` and `played` are all bytes ever published by the writer and
      released by the reader, which no step uses. */
  datatype Ring = Ring(size: nat, frame: nat, buffer: Bytes, readPos: nat, writePos: nat, writer: Writer,
      reader: Reader,
                       accepted: Bytes, played: Bytes)
  {
    /** `write_pos - read_pos` in 32 bits */
    function Fill(): nat {
      (writePos - readPos) % U32
    }

    function Slot(pos: nat, k: nat): nat
      requires size > 0
    {
      (pos % size + k) % size
    }
  }

  datatype Move = BeginWrite(buf: Bytes) | CopyIn | EndWrite | BeginRead(frames: nat) | CopyOut | EndRead

  predicate Enabled(s: Ring, m: Move) {
    && s.size > 0 && s.frame > 0 && |s.buffer| == s.size
    && match m
       case BeginWrite(_) => s.writer.Resting?
       case CopyIn => s.writer.Writing? && s.writer.done < |s.writer.data|
       case EndWrite => s.writer.Writing? && s.writer.done == |s.writer.data|
       case BeginRead(_) => s.reader.Waiting?
       case CopyOut => s.reader.Reading? && |s.reader.out| < s.reader.avail
       case EndRead => s.reader.Reading? && |s.reader.out| == s.reader.avail
  }

  /** How much `aaudio_write` takes of `len` bytes: what fits, in whole frames. */
  function Accepts(s: Ring, len: nat): nat
    requires s.frame > 0
  {
    var n := Min(len, (s.size - s.Fill()) % U32);
    n - n % s.frame
  }

  function Apply(s: Ring, m: Move): Ring
    requires Enabled(s, m)
  {
    match m
    case BeginWrite(buf) =>
      var n := Accepts(s, |buf|);
      if 0 <= n <= |buf| then s.(writer := Writing(buf[..n], 0)) else s
    case CopyIn =>
      var w := s.writer;
      s.(buffer := s.buffer[s.Slot(s.writePos, w.done) := w.data[w.done]], writer := w.(done := w.done + 1))
    case EndWrite =>
      s.(writePos := (s.writePos + |s.writer.data|) % U32, writer := Resting, accepted := s.accepted + s.writer.data)
    case BeginRead(frames) =>
      var want := frames * s.frame;
      s.(reader := Reading(want, Min(want, s.Fill()), [], |s.accepted|))
    case CopyOut =>
      var r := s.reader;
      s.(reader := r.(out := r.out + [s.buffer[s.Slot(s.readPos, |r.out|)]]))
    case EndRead =>
      s.(readPos := (s.readPos + s.reader.avail) % U32, reader := Waiting, played := s.played + s.reader.out)
  }

  /** What the callback has put into its output when it ends: the bytes it found, then silence. */
  function Output(r: Reader): Bytes
    requires r.Reading? && r.avail <= r.want
  {
    r.out + Zeroes(r.want - r.avail)
  }

  ghost predicate Legal(s: Ring, moves: seq<Move>)
    decreases |moves|
  {
    moves == [] || (Enabled(s, moves[0]) && Legal(Apply(s, moves[0]), moves[1..]))
  }

  function After(s: Ring, moves: seq<Move>): Ring
    requires Legal(s, moves)
    decreases |moves|
  {
    if moves == [] then s else After(Apply(s, moves[0]), moves[1..])
  }

  ghost predicate Fresh(s: Ring) {
    && 0 < s.size < U32 && s.frame > 0 && s.size % s.frame == 0 && |s.buffer| == s.size
    && s.readPos == 0 && s.writePos == 0 && s.writer.Resting? && s.reader.Waiting? && s.accepted == [] && s.played == []
  }

  // ---- positions ----

  /** The words tell the place in the ring: the size divides 2^32, or the ring holds one frame, or the words have not
      wrapped. */
  predicate Sound(size: nat, frame: nat, total: nat)
    requires size > 0
  {
    U32 % size == 0 || size == frame || total < U32
  }

  /** The place of byte `i` of the stream. In a ring of one frame each frame begins where the word for its position
      says. */
  function Place(size: nat, frame: nat, i: nat): nat
    requires size > 0
  {
    if size == frame then ((i - i % size) % U32 % size + i % size) % size else i % size
  }

  lemma WordPlace(size: nat, total: nat)
    requires size > 0 && (U32 % size == 0 || total < U32)
    ensures total % U32 % size == total % size
  {
    if total >= U32 {
      MultipleOf(total - total % U32, size, U32);
      ModShift(total - total % U32, total % U32, size);
    }
  }

  lemma InFrame(base: nat, k: nat, size: nat)
    requires k < size && base % size == 0
    ensures (base + k) % size == k && base + k - (base + k) % size == base
  {
    ModShift(base, k, size);
  }

  lemma PlaceInFrame(size: nat, base: nat, k: nat)
    requires k < size && base % size == 0
    ensures Place(size, size, base + k) == (base % U32 % size + k) % size
  {
    InFrame(base, k, size);
  }

  lemma PlacesDistinct(size: nat, frame: nat, base: nat, i: nat, j: nat)
    requires size > 0 && i < j < i + size && (size == frame ==> base % size == 0 && base <= i && j < base + size)
    ensures Place(size, frame, i) != Place(size, frame, j)
  {
    if size == frame {
      PlaceInFrame(size, base, i - base);
      PlaceInFrame(size, base, j - base);
      OffsetsDistinct(base % U32 % size, i - base, j - base, size);
    } else {
      ModDistinct(i, j, size);
    }
  }

  lemma OffsetsDistinct(p: nat, k: nat, l: nat, size: nat)
    requires k < l < size
    ensures (p + k) % size != (p + l) % size
  {
    ModDistinct(p + k, p + l, size);
  }

  // ---- the invariant ----

  ghost predicate Shape(s: Ring) {
    && 0 < s.size < U32 && s.frame > 0 && |s.buffer| == s.size
    && s.writePos == |s.accepted| % U32 && s.readPos == |s.played| % U32
    && s.played <= s.accepted && |s.accepted| - |s.played| + Pending(s.writer) <= s.size
  }

  function Pending(w: Writer): nat {
    if w.Writing? then |w.data| else 0
  }

  /** The ring holds what has been published and not been released, and what has been copied so far. */
  ghost predicate Holds(s: Ring)
    requires s.size > 0 && |s.buffer| == s.size
  {
    && (forall i: nat {:trigger s.accepted[i]} :: |s.played| <= i < |s.accepted|
          ==> s.buffer[Place(s.size, s.frame, i)] == s.accepted[i])
    && (s.writer.Writing? ==> s.writer.done <= |s.writer.data| && Copied(s, |s.accepted|, s.writer.data, s.writer.done))
  }

  ghost predicate Copied(s: Ring, from: nat, data: Bytes, done: nat)
    requires s.size > 0 && |s.buffer| == s.size && done <= |data|
  {
    forall k: nat {:trigger data[k]} :: k < done ==> s.buffer[Place(s.size, s.frame, from + k)] == data[k]
  }

  /** The callback has copied the next bytes in order; it falls short only of what had not been published. */
  ghost predicate ReaderOk(s: Ring) {
    s.reader.Reading? ==>
      var r := s.reader;
      && |r.out| <= r.avail <= r.want && |s.played| + r.avail <= r.seen <= |s.accepted|
      && (r.avail < r.want ==> |s.played| + r.avail == r.seen)
      && r.out == s.accepted[|s.played|..|s.played| + |r.out|]
  }

  ghost predicate WholeFrames(s: Ring)
    requires s.frame > 0
  {
    && s.size % s.frame == 0 && |s.accepted| % s.frame == 0 && |s.played| % s.frame == 0
    && (s.writer.Writing? ==> |s.writer.data| % s.frame == 0)
    && (s.reader.Reading? ==> s.reader.avail % s.frame == 0)
  }

  ghost predicate Inv(s: Ring) {
    Shape(s) && Holds(s) && ReaderOk(s) && WholeFrames(s)
  }

  /** The difference of two words is the difference of what they stand for, if that is small. */
  lemma WordDiff(a: nat, k: nat)
    requires k < U32
    ensures ((a + k) % U32 - a % U32) % U32 == k
  {
    var r := a % U32;
    assert (a + k) % U32 == if r + k < U32 then r + k else r + k - U32;
  }

  lemma SmallWord(k: nat)
    requires k < U32
    ensures k % U32 == k
  {
  }

  lemma FillIs(s: Ring)
    requires Shape(s)
    ensures s.Fill() == |s.accepted| - |s.played| && (s.size - s.Fill()) % U32 == s.size - s.Fill()
  {
    WordDiff(|s.played|, |s.accepted| - |s.played|);
    SmallWord(s.size - (|s.accepted| - |s.played|));
  }

  lemma SlotIs(s: Ring, total: nat, k: nat)
    requires 0 < s.size && Sound(s.size, s.frame, total) && (s.size == s.frame ==> total % s.size == 0 && k < s.size)
    ensures s.Slot(total % U32, k) == Place(s.size, s.frame, total + k)
  {
    if s.size == s.frame {
      InFrame(total, k, s.size);
    } else {
      WordPlace(s.size, total);
      ModShift(total, k, s.size);
    }
  }

  lemma BeginWriteKeeps(s: Ring, buf: Bytes)
    requires Inv(s) && Enabled(s, BeginWrite(buf))
    ensures Inv(Apply(s, BeginWrite(buf)))
    ensures var w := Apply(s, BeginWrite(buf)).writer;
            w.Writing? && |w.data| == Accepts(s, |buf|) && w.data == buf[..|w.data|]
  {
    FillIs(s);
    var n := Min(|buf|, s.size - s.Fill());
    DownIs(n, s.frame);
    DownGreatest(n, 0, s.frame);
  }

  /** A write takes as many whole frames as it is given and as fit. */
  lemma WriteTakesMost(s: Ring, buf: Bytes, k: nat)
    requires Inv(s) && Enabled(s, BeginWrite(buf)) && k % s.frame == 0
    ensures var w := Apply(s, BeginWrite(buf)).writer;
            && w.Writing? && w.done == 0 && w.data == buf[..|w.data|] && |w.data| % s.frame == 0
            && (k <= |w.data| <==> k <= |buf| && k <= s.size - (|s.accepted| - |s.played|))
  {
    BeginWriteKeeps(s, buf);
    FillIs(s);
    var n := Min(|buf|, s.size - s.Fill());
    DownIs(n, s.frame);
    if k <= n {
      DownGreatest(n, k, s.frame);
    }
  }

  /** A callback finds all that has been published and not been played, up to what it asks for. */
  lemma ReadFindsAll(s: Ring, frames: nat)
    requires Inv(s) && Enabled(s, BeginRead(frames))
    ensures Apply(s, BeginRead(frames)).reader
            == Reading(frames * s.frame, Min(frames * s.frame, |s.accepted| - |s.played|), [], |s.accepted|)
  {
    FillIs(s);
  }

  /** In a ring of one frame, a frame is written only when none is there. */
  lemma OneFrame(s: Ring)
    requires Shape(s) && WholeFrames(s) && s.size == s.frame && s.writer.Writing? && s.writer.data != []
    ensures |s.accepted| == |s.played| && |s.writer.data| == s.size
  {
    MultipleDiff(|s.writer.data|, 0, s.frame);
  }

  /** The next byte is stored where nothing is that is still to be read. */
  lemma CopyInSlot(s: Ring)
    requires Inv(s) && Enabled(s, CopyIn) && Sound(s.size, s.frame, |s.accepted|)
    ensures var next := |s.accepted| + s.writer.done;
            && Place(s.size, s.frame, next) == s.Slot(s.writePos, s.writer.done)
            && forall i: nat {:trigger Place(s.size, s.frame, i)} :: |s.played| <= i < next ==>
                 Place(s.size, s.frame, i) != Place(s.size, s.frame, next)
  {
    var next := |s.accepted| + s.writer.done;
    if s.size == s.frame {
      OneFrame(s);
    }
    SlotIs(s, |s.accepted|, s.writer.done);
    forall i: nat | |s.played| <= i < next ensures Place(s.size, s.frame, i) != Place(s.size, s.frame, next) {
      PlacesDistinct(s.size, s.frame, |s.played|, i, next);
    }
  }

  lemma CopyInKeeps(s: Ring)
    requires Inv(s) && Enabled(s, CopyIn) && Sound(s.size, s.frame, |s.accepted|)
    ensures Inv(Apply(s, CopyIn))
  {
    CopyInSlot(s);
  }

  lemma WordAdd(total: nat, n: nat)
    ensures (total % U32 + n) % U32 == (total + n) % U32
  {
  }

  lemma PublishHolds(s: Ring)
    requires Shape(s) && Holds(s) && Enabled(s, EndWrite)
    ensures Holds(Apply(s, EndWrite))
  {
    var s' := Apply(s, EndWrite);
    forall i: nat | |s'.played| <= i < |s'.accepted| ensures s'.buffer[Place(s.size, s.frame, i)] == s'.accepted[i] {
      if i >= |s.accepted| {
        var k := i - |s.accepted|;
        assert s.buffer[Place(s.size, s.frame, |s.accepted| + k)] == s.writer.data[k];
      } else {
        assert s'.accepted[i] == s.accepted[i];
      }
    }
  }

  lemma PublishReader(s: Ring)
    requires ReaderOk(s) && Enabled(s, EndWrite)
    ensures ReaderOk(Apply(s, EndWrite))
  {
    var (r, n) := (s.reader, |s.played|);
    if r.Reading? {
      assert (s.accepted + s.writer.data)[n..n + |r.out|] == s.accepted[n..n + |r.out|];
    }
  }

  lemma PublishFrames(s: Ring)
    requires s.frame > 0 && WholeFrames(s) && Enabled(s, EndWrite)
    ensures WholeFrames(Apply(s, EndWrite))
  {
    MultipleDiff(|s.accepted|, |s.writer.data|, s.frame);
  }

  lemma EndWriteKeeps(s: Ring)
    requires Inv(s) && Enabled(s, EndWrite)
    ensures Inv(Apply(s, EndWrite))
  {
    PublishFrames(s);
    PublishHolds(s);
    PublishReader(s);
    WordAdd(|s.accepted|, |s.writer.data|);
  }

  lemma BeginReadKeeps(s: Ring, frames: nat)
    requires Inv(s) && Enabled(s, BeginRead(frames))
    ensures Inv(Apply(s, BeginRead(frames)))
  {
    FillIs(s);
    MulMod(frames, s.frame);
    MultipleDiff(|s.accepted|, |s.played|, s.frame);
  }

  lemma CopyOutKeeps(s: Ring)
    requires Inv(s) && Enabled(s, CopyOut) && Sound(s.size, s.frame, |s.accepted|)
    ensures Inv(Apply(s, CopyOut))
  {
    var (r, total) := (s.reader, |s.played|);
    SlotIs(s, total, |r.out|);
    assert s.buffer[Place(s.size, s.frame, total + |r.out|)] == s.accepted[total + |r.out|];
  }

  lemma EndReadWhole(s: Ring)
    requires s.frame > 0 && WholeFrames(s) && Enabled(s, EndRead)
    ensures WholeFrames(Apply(s, EndRead))
  {
    MultipleDiff(|s.played|, s.reader.avail, s.frame);
  }

  lemma EndReadShape(s: Ring)
    requires Shape(s) && ReaderOk(s) && Enabled(s, EndRead)
    ensures Shape(Apply(s, EndRead)) && |Apply(s, EndRead).played| >= |s.played|
  {
    assert Apply(s, EndRead).played == s.accepted[..|s.played| + s.reader.avail];
    WordAdd(|s.played|, s.reader.avail);
  }

  lemma EndReadKeeps(s: Ring)
    requires Inv(s) && Enabled(s, EndRead)
    ensures Inv(Apply(s, EndRead))
  {
    EndReadWhole(s);
    EndReadShape(s);
  }

  lemma ApplyKeeps(s: Ring, m: Move)
    requires Inv(s) && Enabled(s, m) && Sound(s.size, s.frame, |s.accepted|)
    ensures Inv(Apply(s, m))
  {
    match m {
      case BeginWrite(buf) => BeginWriteKeeps(s, buf);
      case CopyIn => CopyInKeeps(s);
      case EndWrite => EndWriteKeeps(s);
      case BeginRead(frames) => BeginReadKeeps(s, frames);
      case CopyOut => CopyOutKeeps(s);
      case EndRead => EndReadKeeps(s);
    }
  }

  lemma {:induction false} GrowsOnly(s: Ring, moves: seq<Move>)
    requires Legal(s, moves)
    ensures var t := After(s, moves); |s.accepted| <= |t.accepted| && t.size == s.size && t.frame == s.frame
    decreases |moves|
  {
    if moves != [] {
      GrowsOnly(Apply(s, moves[0]), moves[1..]);
    }
  }

  lemma {:induction false} LegalKeeps(s: Ring, moves: seq<Move>)
    requires Inv(s) && Legal(s, moves) && Sound(s.size, s.frame, |After(s, moves).accepted|)
    ensures Inv(After(s, moves))
    decreases |moves|
  {
    if moves != [] {
      GrowsOnly(s, moves);
      ApplyKeeps(s, moves[0]);
      LegalKeeps(Apply(s, moves[0]), moves[1..]);
    }
  }

  /** What has been played is what was accepted, in order, and no more is in the ring than fits. A callback that ends
      gives the next accepted bytes, and silence only for what had not been published when it looked. All moves are by
      whole frames. */
  ghost predicate InOrder(t: Ring) {
    && t.played <= t.accepted && |t.accepted| - |t.played| <= t.size && t.Fill() == |t.accepted| - |t.played|
    && t.frame > 0 && |t.accepted| % t.frame == 0 && |t.played| % t.frame == 0
    && (Enabled(t, EndRead) ==>
          && t.reader.avail <= t.reader.want && |t.played| + t.reader.avail <= |t.accepted|
          && Output(t.reader) == t.accepted[|t.played|..|t.played| + t.reader.avail]
             + Zeroes(t.reader.want - t.reader.avail)
          && (t.reader.avail < t.reader.want ==> |t.played| + t.reader.avail == t.reader.seen))
  }

  /** In every interleaving, for a size that divides 2^32 or is one frame, and for every size before the positions
      wrap. */
  lemma PlaysInOrder(s: Ring, moves: seq<Move>)
    requires Fresh(s) && Legal(s, moves) && Sound(s.size, s.frame, |After(s, moves).accepted|)
    ensures InOrder(After(s, moves))
  {
    assert Inv(s);
    LegalKeeps(s, moves);
    FillIs(After(s, moves));
  }

  // ---- any other size goes wrong once the positions wrap ----

  lemma {:induction false} Then(s: Ring, a: seq<Move>, b: seq<Move>)
    requires Legal(s, a) && Legal(After(s, a), b)
    ensures Legal(s, a + b) && After(s, a + b) == After(After(s, a), b)
    decreases |a|
  {
    if a == [] {
      assert a + b == b;
    } else {
      Then(Apply(s, a[0]), a[1..], b);
      assert (a + b)[1..] == a[1..] + b;
    }
  }

  lemma OneMove(s: Ring, m: Move)
    requires Enabled(s, m)
    ensures Legal(s, [m]) && After(s, [m]) == Apply(s, m)
  {
    assert [m][1..] == [];
    assert Legal(Apply(s, m), []);
  }

  /** The buffer when all of `data` from `done` on has been copied to its slots. */
  function Poured(s: Ring, buffer: Bytes, data: Bytes, done: nat): (r: Bytes)
    requires s.size > 0 && |buffer| == s.size && done <= |data|
    ensures |r| == |buffer|
    decreases |data| - done
  {
    if done == |data| then buffer else Poured(s, buffer[s.Slot(s.writePos, done) := data[done]], data, done + 1)
  }

  lemma {:induction false} Pour(s: Ring, data: Bytes, done: nat) returns (moves: seq<Move>)
    requires s.size > 0 && s.frame > 0 && |s.buffer| == s.size && done <= |data| && s.writer == Writing(data, done)
    ensures Legal(s, moves) && After(s, moves)
            == s.(buffer := Poured(s, s.buffer, data, done), writer := Writing(data, |data|))
    decreases |data| - done
  {
    if done == |data| {
      moves := [];
    } else {
      var t := Apply(s, CopyIn);
      var rest := Pour(t, data, done + 1);
      OneMove(s, CopyIn);
      Then(s, [CopyIn], rest);
      moves := [CopyIn] + rest;
      PouredSame(s, t, t.buffer, data, done + 1);
    }
  }

  lemma {:induction false} PouredSame(s: Ring, t: Ring, buffer: Bytes, data: Bytes, done: nat)
    requires s.size > 0 && |buffer| == s.size && done <= |data| && t.size == s.size && t.writePos == s.writePos
    ensures Poured(s, buffer, data, done) == Poured(t, buffer, data, done)
    decreases |data| - done
  {
    if done < |data| {
      PouredSame(s, t, buffer[s.Slot(s.writePos, done) := data[done]], data, done + 1);
    }
  }

  /** A whole write that is not interrupted. */
  lemma WholeWrite(s: Ring, data: Bytes) returns (moves: seq<Move>)
    requires Enabled(s, BeginWrite(data)) && Accepts(s, |data|) == |data|
    ensures Legal(s, moves)
    ensures After(s, moves) == s.(buffer := Poured(s, s.buffer, data, 0), writePos := (s.writePos + |data|) % U32,
            accepted := s.accepted + data)
  {
    assert data[..|data|] == data;
    var t := Apply(s, BeginWrite(data));
    var pour := Pour(t, data, 0);
    PouredSame(s, t, s.buffer, data, 0);
    var u := After(t, pour);
    OneMove(s, BeginWrite(data));
    OneMove(u, EndWrite);
    Then(t, pour, [EndWrite]);
    Then(s, [BeginWrite(data)], pour + [EndWrite]);
    moves := [BeginWrite(data)] + (pour + [EndWrite]);
  }

  /** What a callback gets from `n` slots. */
  function Drawn(s: Ring, n: nat): (r: Bytes)
    requires s.size > 0 && |s.buffer| == s.size
    ensures |r| == n
  {
    seq(n, k requires k >= 0 => s.buffer[s.Slot(s.readPos, k)])
  }

  lemma {:induction false} Draw(s: Ring) returns (moves: seq<Move>)
    requires s.size > 0 && s.frame > 0 && |s.buffer| == s.size && s.reader.Reading? && |s.reader.out| <= s.reader.avail
    requires s.reader.out == Drawn(s, |s.reader.out|)
    ensures Legal(s, moves) && After(s, moves) == s.(reader := s.reader.(out := Drawn(s, s.reader.avail)))
    decreases s.reader.avail - |s.reader.out|
  {
    if |s.reader.out| == s.reader.avail {
      moves := [];
    } else {
      var t := Apply(s, CopyOut);
      assert t.reader.out == Drawn(s, |s.reader.out| + 1) == Drawn(t, |s.reader.out| + 1);
      var rest := Draw(t);
      OneMove(s, CopyOut);
      Then(s, [CopyOut], rest);
      moves := [CopyOut] + rest;
      assert Drawn(t, s.reader.avail) == Drawn(s, s.reader.avail);
    }
  }

  /** A callback up to the point where all is copied. */
  lemma ReadUp(s: Ring, frames: nat) returns (moves: seq<Move>)
    requires Enabled(s, BeginRead(frames)) && s.Fill() == frames * s.frame
    ensures Legal(s, moves)
    ensures After(s, moves) == s.(reader := Reading(s.Fill(), s.Fill(), Drawn(s, s.Fill()), |s.accepted|))
  {
    var t := Apply(s, BeginRead(frames));
    assert t.reader.out == [] == Drawn(t, 0);
    var draw := Draw(t);
    assert Drawn(t, s.Fill()) == Drawn(s, s.Fill());
    OneMove(s, BeginRead(frames));
    Then(s, [BeginRead(frames)], draw);
    moves := [BeginRead(frames)] + draw;
  }

  /** After a write of `k` bytes into an empty ring, that is how much is there. */
  lemma FillGrown(s: Ring, t: Ring, k: nat)
    requires s.writePos == s.readPos < U32 && k < U32 && t.readPos == s.readPos && t.writePos == (s.writePos + k) % U32
    ensures t.Fill() == k
  {
    WordDiff(s.readPos, k);
    assert s.readPos % U32 == s.readPos;
  }

  lemma AcceptsAll(s: Ring, len: nat)
    requires s.frame > 0 && s.size < U32 && s.Fill() + len <= s.size && len % s.frame == 0
    ensures Accepts(s, len) == len
  {
    assert (s.size - s.Fill()) % U32 == s.size - s.Fill();
  }

  /** Nothing but zeroes has passed through the ring so far, `n` of them. */
  function Idle(size: nat, frame: nat, n: nat): Ring {
    Ring(size, frame, Zeroes(size), n % U32, n % U32, Resting, Waiting, Zeroes(n), Zeroes(n))
  }

  lemma {:induction false} ZeroesPoured(s: Ring, n: nat, done: nat)
    requires s.size > 0 && done <= n
    ensures Poured(s, Zeroes(s.size), Zeroes(n), done) == Zeroes(s.size)
    decreases n - done
  {
    if done < n {
      assert Zeroes(s.size)[s.Slot(s.writePos, done) := 0] == Zeroes(s.size);
      ZeroesPoured(s, n, done + 1);
    }
  }

  lemma ZeroesAdd(a: nat, b: nat)
    ensures Zeroes(a) + Zeroes(b) == Zeroes(a + b)
  {
  }

  /** One frame of zeroes in, from a ring that has room for it. */
  lemma ZeroFrame(s: Ring) returns (moves: seq<Move>)
    requires s.writer.Resting? && 0 < s.frame <= s.size < U32 && s.writePos == s.readPos && s.buffer == Zeroes(s.size)
    ensures Legal(s, moves)
    ensures After(s, moves) == s.(writePos := (s.writePos + s.frame) % U32, accepted := s.accepted + Zeroes(s.frame))
  {
    assert s.Fill() == 0;
    AcceptsAll(s, s.frame);
    moves := WholeWrite(s, Zeroes(s.frame));
    ZeroesPoured(s, s.frame, 0);
  }

  /** One frame of zeroes in and out again. */
  lemma IdleFrame(size: nat, frame: nat, n: nat) returns (moves: seq<Move>)
    requires 0 < frame <= size < U32 && n + frame < U32
    ensures Legal(Idle(size, frame, n), moves) && After(Idle(size, frame, n), moves) == Idle(size, frame, n + frame)
  {
    var write := WriteFirst(size, frame, n);
    var read := ReadOut(size, frame, n);
    Then(Idle(size, frame, n), write, read);
    moves := write + read;
  }

  lemma ReadDone(size: nat, frame: nat, n: nat)
    requires 0 < frame <= size < U32 && n + frame < U32
    ensures var t := HalfWrapped(size, frame, n);
            var u := t.(reader := Reading(frame, frame, Drawn(t, frame), |t.accepted|));
            Enabled(u, EndRead) && Apply(u, EndRead) == Idle(size, frame, n + frame)
  {
    ZeroesAdd(n, frame);
    assert Drawn(HalfWrapped(size, frame, n), frame) == Zeroes(frame);
    WordAdd(n, frame);
  }

  lemma ReadOut(size: nat, frame: nat, n: nat) returns (moves: seq<Move>)
    requires 0 < frame <= size < U32 && n + frame < U32 && HalfWrapped(size, frame, n).Fill() == frame
    ensures Legal(HalfWrapped(size, frame, n), moves)
    ensures After(HalfWrapped(size, frame, n), moves) == Idle(size, frame, n + frame)
  {
    var t := HalfWrapped(size, frame, n);
    var read := ReadUp(t, 1);
    ReadDone(size, frame, n);
    OneMove(After(t, read), EndRead);
    Then(t, read, [EndRead]);
    moves := read + [EndRead];
  }

  lemma {:induction false} IdleFrames(size: nat, frame: nat, k: nat) returns (moves: seq<Move>)
    requires 0 < frame <= size < U32 && k * frame < U32
    ensures Legal(Idle(size, frame, 0), moves) && After(Idle(size, frame, 0), moves) == Idle(size, frame, k * frame)
  {
    if k == 0 {
      moves := [];
    } else {
      MulSucc(k, frame);
      MulLe(0, k - 1, frame);
      var most := IdleFrames(size, frame, k - 1);
      var last := IdleFrame(size, frame, (k - 1) * frame);
      Then(Idle(size, frame, 0), most, last);
      moves := most + last;
    }
  }

  /** A frame that is zero but for its first byte. */
  function Marked(frame: nat): (r: Bytes)
    requires frame > 0
    ensures |r| == frame
  {
    [1] + Zeroes(frame - 1)
  }

  /** Only the first byte's slot has changed. */
  lemma {:induction false} MarkedPoured(s: Ring, frame: nat, buffer: Bytes, done: nat)
    requires 0 < done <= frame <= s.size && buffer == Zeroes(s.size)[s.Slot(s.writePos, 0) := 1]
    ensures Poured(s, buffer, Marked(frame), done) == buffer
    decreases frame - done
  {
    if done < frame {
      OffsetsDistinct(s.writePos % s.size, 0, done, s.size);
      assert buffer[s.Slot(s.writePos, done) := 0] == buffer;
      MarkedPoured(s, frame, buffer, done + 1);
    }
  }

  lemma MarkPoured(s: Ring, frame: nat)
    requires 0 < frame <= s.size
    ensures Poured(s, Zeroes(s.size), Marked(frame), 0) == Zeroes(s.size)[s.writePos % s.size := 1]
  {
    ModShift(s.writePos, 0, s.size);
    MarkedPoured(s, frame, Zeroes(s.size)[s.Slot(s.writePos, 0) := 1], 1);
  }

  /** Where the next frame is written after the words have wrapped, and where it is looked for */
  lemma Misplaced(size: nat, n: nat, frame: nat)
    requires 0 < size && U32 % size != 0 && n < U32 <= n + frame && frame < size < U32
    ensures (n % size + frame) % size != (n + frame) % U32 % size
  {
    var e := n + frame - U32;
    assert (n + frame) % U32 == e;
    ModShift(n, frame, size);
    ModShift(U32, e, size);
    OffsetsDistinct(e, 0, U32 % size, size);
  }

  /** After the frame that crosses the wrap and a marked one */
  function Wrapped(size: nat, frame: nat, n: nat): Ring
    requires 0 < frame && 0 < size
  {
    Idle(size, frame, n).(buffer := Zeroes(size)[(n + frame) % U32 % size := 1], writePos := (n + 2 * frame) % U32,
                          accepted := Zeroes(n) + Zeroes(frame) + Marked(frame))
  }

  lemma MarkedFrame(s: Ring) returns (moves: seq<Move>)
    requires s.writer.Resting? && 0 < s.frame && 2 * s.frame <= s.size < U32 && s.Fill() == s.frame
             && s.buffer == Zeroes(s.size)
    ensures Legal(s, moves)
    ensures After(s, moves) == s.(buffer := Zeroes(s.size)[s.writePos % s.size := 1],
            writePos := (s.writePos + s.frame) % U32,
                                  accepted := s.accepted + Marked(s.frame))
  {
    AcceptsAll(s, s.frame);
    moves := WholeWrite(s, Marked(s.frame));
    MarkPoured(s, s.frame);
  }

  /** After the frame that crosses the wrap */
  function HalfWrapped(size: nat, frame: nat, n: nat): Ring {
    Idle(size, frame, n).(writePos := (n + frame) % U32, accepted := Zeroes(n) + Zeroes(frame))
  }

  lemma WriteFirst(size: nat, frame: nat, n: nat) returns (moves: seq<Move>)
    requires 0 < frame <= size < U32 && n < U32
    ensures Legal(Idle(size, frame, n), moves) && After(Idle(size, frame, n), moves) == HalfWrapped(size, frame, n)
    ensures HalfWrapped(size, frame, n).Fill() == frame
  {
    moves := ZeroFrame(Idle(size, frame, n));
    WordAdd(n, frame);
    WordDiff(n, frame);
  }

  lemma WriteSecond(size: nat, frame: nat, n: nat) returns (moves: seq<Move>)
    requires 0 < frame && 2 * frame <= size < U32 && HalfWrapped(size, frame, n).Fill() == frame
    ensures Legal(HalfWrapped(size, frame, n), moves)
    ensures After(HalfWrapped(size, frame, n), moves) == Wrapped(size, frame, n)
  {
    moves := MarkedFrame(HalfWrapped(size, frame, n));
    assert n + frame + frame == n + 2 * frame;
    WordAdd(n + frame, frame);
  }

  lemma WriteTwo(size: nat, frame: nat, n: nat) returns (moves: seq<Move>)
    requires 0 < frame && 2 * frame <= size < U32 && n < U32
    ensures Legal(Idle(size, frame, n), moves) && After(Idle(size, frame, n), moves) == Wrapped(size, frame, n)
  {
    var first := WriteFirst(size, frame, n);
    var second := WriteSecond(size, frame, n);
    Then(Idle(size, frame, n), first, second);
    moves := first + second;
  }

  lemma WrongByte(t: Ring, n: nat, frame: nat)
    requires t.frame > 0 && t.size > 0 && |t.buffer| == t.size && |t.played| == n && t.reader.Reading?
    requires t.reader.avail == t.reader.want == |t.reader.out| == 2 * frame && frame > 0
    requires |t.accepted| == n + 2 * frame && t.accepted[n + frame] != t.reader.out[frame]
    ensures !InOrder(t)
  {
    assert Enabled(t, EndRead);
    assert Output(t.reader)[frame] != t.accepted[n..n + 2 * frame][frame];
  }

  lemma WrappedFill(size: nat, frame: nat, n: nat)
    requires 0 < frame && 2 * frame <= size < U32 && n < U32
    ensures Wrapped(size, frame, n).Fill() == 2 * frame
  {
    WordDiff(n, 2 * frame);
  }

  /** A callback that asks for both frames */
  lemma WrapRun(size: nat, frame: nat, n: nat) returns (moves: seq<Move>)
    requires 0 < frame && 2 * frame <= size < U32 && U32 % size != 0 && n < U32 <= n + frame
    ensures Legal(Idle(size, frame, n), moves)
    ensures !InOrder(After(Idle(size, frame, n), moves))
  {
    var s := Idle(size, frame, n);
    var u := Wrapped(size, frame, n);
    var write := WriteTwo(size, frame, n);
    WrappedFill(size, frame, n);
    var read := ReadUp(u, 2);
    Then(s, write, read);
    moves := write + read;
    LooksAside(size, frame, n);
    WrongByte(After(u, read), n, frame);
  }

  lemma LooksAside(size: nat, frame: nat, n: nat)
    requires 0 < frame && 2 * frame <= size < U32 && U32 % size != 0 && n < U32 <= n + frame
    ensures Drawn(Wrapped(size, frame, n), 2 * frame)[frame] == 0
  {
    Misplaced(size, n, frame);
    assert n % U32 == n;
  }

  /** Every size that neither divides 2^32 nor is one frame has a run that plays a wrong byte. */
  lemma PlaysWrong(size: nat, frame: nat) returns (s: Ring, moves: seq<Move>)
    requires 0 < frame <= size < U32 && size % frame == 0 && size != frame && U32 % size != 0
    ensures Fresh(s) && s.size == size && s.frame == frame && Legal(s, moves) && !InOrder(After(s, moves))
  {
    var n := Down(U32 - 1, frame);
    DownIs(U32 - 1, frame);
    MultipleDiff(size, frame, frame);
    s := Idle(size, frame, 0);
    var idle := IdleFrames(size, frame, (U32 - 1) / frame);
    var wrap := WrapRun(size, frame, n);
    Then(s, idle, wrap);
    moves := idle + wrap;
  }

  ghost predicate RunOf(size: nat, frame: nat, s: Ring, moves: seq<Move>) {
    Fresh(s) && s.size == size && s.frame == frame && Legal(s, moves)
  }

  /** A ring plays in order in every run exactly if its size divides 2^32 or is one frame. */
  lemma AlwaysInOrderIff(size: nat, frame: nat)
    requires 0 < frame <= size < U32 && size % frame == 0
    ensures (forall s, moves :: RunOf(size, frame, s, moves) ==> InOrder(After(s, moves)))
            <==> (U32 % size == 0 || size == frame)
  {
    if U32 % size == 0 || size == frame {
      forall s, moves | RunOf(size, frame, s, moves) ensures InOrder(After(s, moves)) {
        PlaysInOrder(s, moves);
      }
    } else {
      var s, moves := PlaysWrong(size, frame);
      assert RunOf(size, frame, s, moves);
    }
  }
}
