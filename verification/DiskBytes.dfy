/** The bytes of a disk: whatever lies past its end reads as zero. */
module DiskBytes {
  newtype Byte = x: int | 0 <= x < 256

  type Bytes = seq<Byte>

  /** What a disk holds. */
  datatype Content = Content(bytes: Bytes)

  function At(data: Content, i: nat): Byte {
    if i < |data.bytes| then data.bytes[i] else 0
  }

  function Max(a: nat, b: nat): nat {
    if a > b then a else b
  }

  function Min(a: nat, b: nat): nat {
    if a < b then a else b
  }

  function Zeroes(n: nat): (r: Bytes)
    ensures |r| == n
  {
    seq(n, _ => 0)
  }

  function Read(data: Content, offset: nat, n: nat): (r: Bytes)
    ensures |r| == n
  {
    seq(n, i requires i >= 0 => At(data, offset + i))
  }

  /** The disk with at least `n` bytes. */
  function Extended(data: Content, n: nat): Content {
    if n <= |data.bytes| then data else Content(data.bytes + Zeroes(n - |data.bytes|))
  }

  /** The disk after `bytes` were written at `offset`; it grows if need be. */
  function Write(data: Content, offset: nat, bytes: Bytes): Content {
    if bytes == [] then data
    else
      Content(seq(Max(|data.bytes|, offset + |bytes|),
                  i requires i >= 0 => if offset <= i < offset + |bytes| then bytes[i - offset] else At(data, i)))
  }

  lemma WriteSize(data: Content, offset: nat, bytes: Bytes)
    ensures |Write(data, offset, bytes).bytes| == if bytes == [] then |data.bytes|
            else Max(|data.bytes|, offset + |bytes|)
  {
  }

  lemma WriteAt(data: Content, offset: nat, bytes: Bytes, i: nat)
    ensures At(Write(data, offset, bytes), i) == if offset <= i < offset + |bytes| then bytes[i - offset]
            else At(data, i)
  {
  }

  lemma WriteMeans(data: Content, offset: nat, bytes: Bytes)
    ensures |Write(data, offset, bytes).bytes| == if bytes == [] then |data.bytes|
            else Max(|data.bytes|, offset + |bytes|)
    ensures forall i: nat :: At(Write(data, offset, bytes), i) == if offset <= i < offset + |bytes|
            then bytes[i - offset] else At(data, i)
  {
  }

  lemma SameEverywhere(a: Content, b: Content)
    requires |a.bytes| == |b.bytes| && forall i: nat :: At(a, i) == At(b, i)
    ensures a == b
  {
    assert forall i :: 0 <= i < |a.bytes| ==> a.bytes[i] == At(a, i) && b.bytes[i] == At(b, i);
    assert a.bytes == b.bytes;
  }

  /** Two writes, one right after the other, are one. */
  lemma WriteWrite(data: Content, offset: nat, a: Bytes, b: Bytes)
    ensures Write(Write(data, offset, a), offset + |a|, b) == Write(data, offset, a + b)
  {
    var (x, y) := (Write(Write(data, offset, a), offset + |a|, b), Write(data, offset, a + b));
    WriteSize(data, offset, a);
    WriteSize(Write(data, offset, a), offset + |a|, b);
    WriteSize(data, offset, a + b);
    forall i: nat ensures At(x, i) == At(y, i) {
      WriteAt(data, offset, a, i);
      WriteAt(Write(data, offset, a), offset + |a|, b, i);
      WriteAt(data, offset, a + b, i);
    }
    SameEverywhere(x, y);
  }

  lemma ReadRead(data: Content, offset: nat, m: nat, n: nat)
    ensures Read(data, offset, m) + Read(data, offset + m, n) == Read(data, offset, m + n)
  {
  }

  lemma ZeroesConcat(m: nat, n: nat)
    ensures Zeroes(m) + Zeroes(n) == Zeroes(m + n)
  {
  }

  lemma PaddedAt(data: Content, offset: nat, a: nat, bytes: Bytes, b: nat, i: nat)
    requires a <= offset && offset - a <= i < offset + |bytes| + b
    ensures (Read(data, offset - a, a) + bytes + Read(data, offset + |bytes|, b))[i - (offset - a)]
            == if offset <= i < offset + |bytes| then bytes[i - offset] else At(data, i)
  {
  }

  lemma ExtendedAt(data: Content, n: nat, i: nat)
    ensures At(Extended(data, n), i) == At(data, i)
  {
  }

  lemma WriteBackAt(data: Content, offset: nat, a: nat, bytes: Bytes, b: nat, all: Bytes, i: nat)
    requires a <= offset && all == Read(data, offset - a, a) + bytes + Read(data, offset + |bytes|, b)
    ensures At(Write(data, offset - a, all), i) == At(Write(Extended(data, offset + |bytes| + b), offset, bytes), i)
  {
    WriteAt(data, offset - a, all, i);
    WriteAt(Extended(data, offset + |bytes| + b), offset, bytes, i);
    ExtendedAt(data, offset + |bytes| + b, i);
    if offset - a <= i < offset + |bytes| + b {
      PaddedAt(data, offset, a, bytes, b, i);
    }
  }

  /** Writing back what is there at both ends changes nothing, though the disk may get longer. */
  lemma WriteBack(data: Content, offset: nat, a: nat, bytes: Bytes, b: nat)
    requires a <= offset && bytes != []
    ensures Write(data, offset - a, Read(data, offset - a, a) + bytes + Read(data, offset + |bytes|, b))
            == Write(Extended(data, offset + |bytes| + b), offset, bytes)
  {
    var all := Read(data, offset - a, a) + bytes + Read(data, offset + |bytes|, b);
    var d := Extended(data, offset + |bytes| + b);
    WriteSize(data, offset - a, all);
    WriteSize(d, offset, bytes);
    forall i: nat ensures At(Write(data, offset - a, all), i) == At(Write(d, offset, bytes), i) {
      WriteBackAt(data, offset, a, bytes, b, all, i);
    }
    SameEverywhere(Write(data, offset - a, all), Write(d, offset, bytes));
  }

  /** Nothing outside `offset` to `offset + n` differs: with zeroes there, the disks are the same. */
  predicate SameOutside(a: Content, b: Content, offset: nat, n: nat) {
    Write(a, offset, Zeroes(n)) == Write(b, offset, Zeroes(n))
  }

  lemma OutsideMeans(a: Content, b: Content, offset: nat, n: nat, i: nat)
    requires SameOutside(a, b, offset, n) && !(offset <= i < offset + n)
    ensures At(a, i) == At(b, i)
  {
    WriteMeans(a, offset, Zeroes(n));
    WriteMeans(b, offset, Zeroes(n));
  }

  lemma WriteOutside(data: Content, offset: nat, bytes: Bytes)
    ensures SameOutside(data, Write(data, offset, bytes), offset, |bytes|)
  {
    var w := Write(data, offset, bytes);
    WriteMeans(data, offset, bytes);
    WriteMeans(data, offset, Zeroes(|bytes|));
    WriteMeans(w, offset, Zeroes(|bytes|));
    SameEverywhere(Write(data, offset, Zeroes(|bytes|)), Write(w, offset, Zeroes(|bytes|)));
  }

  /** A wider range leaves less to compare. */
  lemma Wider(a: Content, b: Content, offset: nat, n: nat, offset': nat, n': nat)
    requires SameOutside(a, b, offset, n) && offset' <= offset && offset + n <= offset' + n'
    ensures SameOutside(a, b, offset', n')
  {
    WriteMeans(a, offset, Zeroes(n));
    WriteMeans(b, offset, Zeroes(n));
    WriteMeans(a, offset', Zeroes(n'));
    WriteMeans(b, offset', Zeroes(n'));
    forall i: nat ensures At(Write(a, offset', Zeroes(n')), i) == At(Write(b, offset', Zeroes(n')), i) {
      if !(offset <= i < offset + n) {
        OutsideMeans(a, b, offset, n, i);
      }
    }
    SameEverywhere(Write(a, offset', Zeroes(n')), Write(b, offset', Zeroes(n')));
  }

  /** The disk has room for the write anyway. */
  lemma ExtendedWrite(data: Content, n: nat, offset: nat, bytes: Bytes)
    ensures bytes != [] && n <= offset + |bytes|
            ==> Write(Extended(data, n), offset, bytes) == Write(data, offset, bytes)
    ensures Extended(Write(data, offset, bytes), n) == Write(Extended(data, n), offset, bytes)
  {
    var (x, y, z) := (Write(Extended(data, n), offset, bytes), Write(data, offset, bytes),
        Extended(Write(data, offset, bytes), n));
    WriteSize(Extended(data, n), offset, bytes);
    WriteSize(data, offset, bytes);
    forall i: nat ensures At(x, i) == At(y, i) && At(z, i) == At(y, i) {
      WriteAt(Extended(data, n), offset, bytes, i);
      WriteAt(data, offset, bytes, i);
      ExtendedAt(data, n, i);
      ExtendedAt(y, n, i);
    }
    SameEverywhere(z, x);
    if bytes != [] && n <= offset + |bytes| {
      SameEverywhere(x, y);
    }
  }

  lemma ReadAfterWrite(data: Content, offset: nat, bytes: Bytes, from: nat, n: nat)
    requires offset + |bytes| <= from
    ensures Read(Write(data, offset, bytes), from, n) == Read(data, from, n)
  {
    forall i | 0 <= i < n ensures Read(Write(data, offset, bytes), from, n)[i] == Read(data, from, n)[i] {
      WriteAt(data, offset, bytes, from + i);
    }
  }

  lemma ReadPastEnd(data: Content, from: nat, n: nat)
    requires |data.bytes| <= from
    ensures Read(data, from, n) == Zeroes(n)
  {
    forall i | 0 <= i < n ensures Read(data, from, n)[i] == Zeroes(n)[i] {
      assert At(data, from + i) == 0;
    }
  }
}
