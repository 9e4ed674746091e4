/** Writing to a playback voice: frames go through the resampler into the ring of the mixing buffer, and a frame
    that the resampler has looked at but not taken is kept for the next write. */
module PlaybackVoice {
  import opened Resampler

  /** `out` added to a ring from `at` on. */
  function RingMixed(buf: seq<Frame>, at: nat, out: seq<Frame>): (r: seq<Frame>)
    requires at < |buf|
    ensures |r| == |buf|
  {
    seq(|buf|, i requires 0 <= i < |buf| =>
      var j := if i >= at then i - at else i + |buf| - at;
      if j < |out| then Put(buf[i], out[j], true) else buf[i])
  }

  /** Frame `k` is added `k` places on around the ring, left to left and right to right; the rest stays. */
  lemma RingMeans(buf: seq<Frame>, at: nat, out: seq<Frame>, k: nat)
    requires at < |buf| && k < |buf|
    ensures var (i, r) := (if at + k < |buf| then at + k else at + k - |buf|, RingMixed(buf, at, out));
            r[i] == if k < |out| then Frame(buf[i].l + out[k].l, buf[i].r + out[k].r) else buf[i]
  {
  }

  /** Voices can be mixed in any order. */
  lemma MixCommutes(buf: seq<Frame>, a: nat, x: seq<Frame>, b: nat, y: seq<Frame>)
    requires a < |buf| && b < |buf|
    ensures RingMixed(RingMixed(buf, a, x), b, y) == RingMixed(RingMixed(buf, b, y), a, x)
  {
  }

  lemma RingOne(buf: seq<Frame>, at: nat, out: seq<Frame>)
    requires at < |buf| && at + |out| <= |buf|
    ensures RingMixed(buf, at, out) == Stored(buf, at, out, true)
  {
  }

  lemma RingTwo(buf: seq<Frame>, at: nat, a: seq<Frame>, b: seq<Frame>)
    requires at < |buf| && at + |a| == |buf| && |b| <= at
    ensures RingMixed(buf, at, a + b) == Stored(Stored(buf, at, a, true), 0, b, true)
  {
  }

  /** A call that leaves room has taken all its input; one that is given no room where it left off makes no
      difference. */
  lemma LeavesRoom(s: Rate, input: seq<Frame>, room: nat)
    requires s.Valid() && |RateFlow(s, input, room).out| < room
    ensures RateFlow(s, input, room).taken == |input|
  {
    if !s.Passes() {
      FlowClosed(s, input, room);
    }
  }

  /** Two calls, the second on the rest of the input and with more room, are one. */
  lemma TwoCalls(s: Rate, input: seq<Frame>, r1: nat, r2: nat)
    ensures var f := RateFlow(s, input, r1);
            && f.taken <= |input| && |f.out| <= r1
            && var g := RateFlow(f.rate, input[f.taken..], r1 - |f.out| + r2);
               RateFlow(s, input, r1 + r2) == Joined(f.taken, f.out, g)
  {
    RateFlowSplit(s, input, [], r1, r2);
    var f := RateFlow(s, input, r1);
    assert input + [] == input && input[f.taken..] + [] == input[f.taken..];
  }

  /** A call that has no input left, or has room left, or would get no more room, has done all there is to do. */
  lemma StopsHere(s: Rate, input: seq<Frame>, r1: nat, r2: nat)
    requires s.Valid()
    requires var f := RateFlow(s, input, r1); f.taken == |input| || |f.out| < r1 || r2 == 0
    ensures RateFlow(s, input, r1 + r2) == RateFlow(s, input, r1)
  {
    var f := RateFlow(s, input, r1);
    if |f.out| < r1 {
      LeavesRoom(s, input, r1);
    }
    if r2 > 0 && !s.Passes() {
      TwoCalls(s, input, r1, r2);
      assert input[f.taken..] == [];
      FlowInc(s, input, r1);
      assert f.out + [] == f.out;
    }
  }

  /** The frames of the mixing buffer, and all that a call leaves behind */
  datatype Ring = Ring(frames: seq<Frame>)

  datatype Done = Done(rate: Rate, taken: nat, made: nat, ring: Ring)

  /** A call on an endless ring */
  function Ran(s: Rate, input: seq<Frame>, room: nat, ring: seq<Frame>, at: nat): Done
    requires at < |ring|
  {
    var f := RateFlow(s, input, room);
    Done(f.rate, f.taken, |f.out|, Ring(RingMixed(ring, at, f.out)))
  }

  lemma RanOnce(s: Rate, input: seq<Frame>, room: nat, total: nat, ring: seq<Frame>, at: nat)
    requires s.Valid() && at < |ring| && at + room <= |ring| && room <= total
    requires var f := RateFlow(s, input, room); f.taken == |input| || |f.out| < room || total == room
    ensures var f := RateFlow(s, input, room);
            && |f.out| <= room
            && Ran(s, input, total, ring, at) == Done(f.rate, f.taken, |f.out|, Ring(Stored(ring, at, f.out, true)))
  {
    StopsHere(s, input, room, total - room);
    RingOne(ring, at, RateFlow(s, input, room).out);
  }

  lemma RanTwice(s: Rate, input: seq<Frame>, room: nat, more: nat, total: nat, ring: seq<Frame>, at: nat)
    requires at < |ring| && at + room == |ring| && room + more == total && more <= at
             && |RateFlow(s, input, room).out| == room
    ensures var f := RateFlow(s, input, room);
            && f.taken <= |input|
            && var g := RateFlow(f.rate, input[f.taken..], more);
               && |g.out| <= more
               && Ran(s, input, total, ring, at)
                  == Done(g.rate, f.taken + g.taken, |f.out| + |g.out|,
                      Ring(Stored(Stored(ring, at, f.out, true), 0, g.out, true)))
  {
    TwoCalls(s, input, room, more);
    var f := RateFlow(s, input, room);
    RingTwo(ring, at, f.out, RateFlow(f.rate, input[f.taken..], more).out);
  }

  // ---- one write, on values ----

  /** The resampler and the frame that it has looked at but not taken, if any. */
  datatype Line = Line(rate: Rate, left: seq<Frame>)

  /** What a write leaves, which of its frames it accepted, and what it made of them. */
  datatype Written = Written(line: Line, accepted: seq<Frame>, out: seq<Frame>)

  function Smaller(a: nat, b: nat): nat {
    if a < b then a else b
  }

  /** How many frames a write gives to the resampler, by prediction, supply and the size of its buffer. */
  function FramesGiven(v: Line, buf: seq<Frame>, room: nat, size: nat): nat {
    Smaller(FramesIn(v.rate, room), Smaller(|v.left| + |buf|, size))
  }

  /** `audio_pcm_sw_write` with the frames of `buf` converted and with `room` for output */
  function WriteOnce(v: Line, buf: seq<Frame>, room: nat, size: nat): (w: Written)
    requires |v.left| <= 1
    ensures |w.line.left| <= 1 && |w.accepted| <= |buf| && w.accepted == buf[..|w.accepted|] && |w.out| <= room
  {
    var n := FramesGiven(v, buf, room, size);
    if n == 0 then Written(v, [], []) else Settled(v, buf, n, RateFlow(v.rate, (v.left + buf)[..n], room))
  }

  /** The frame that is left over is kept, if it is just one. */
  function Settled(v: Line, buf: seq<Frame>, n: nat, f: Flowed): Written
    requires 0 < n <= |v.left| + |buf| && f.taken <= n && |v.left| <= 1
  {
    var left := |v.left|;
    if n - f.taken == 1 then Written(Line(f.rate, [(v.left + buf)[f.taken]]), buf[..f.taken + 1 - left], f.out)
    else if f.taken >= left then Written(Line(f.rate, []), buf[..f.taken - left], f.out)
    else Written(Line(f.rate, v.left), buf[..f.taken], f.out)
  }

  lemma SettledConserves(v: Line, buf: seq<Frame>, n: nat, f: Flowed)
    requires 0 < n <= |v.left| + |buf| && f.taken <= n && |v.left| <= 1
    ensures var w := Settled(v, buf, n, f); v.left + w.accepted == (v.left + buf)[..f.taken] + w.line.left
  {
  }

  /** What was left and what is accepted is what the resampler took and what is left now. */
  lemma WriteConserves(v: Line, buf: seq<Frame>, room: nat, size: nat)
    requires |v.left| <= 1
    ensures var (w, n) := (WriteOnce(v, buf, room, size), FramesGiven(v, buf, room, size));
            var f := RateFlow(v.rate, (v.left + buf)[..n], room);
            && f.taken <= n
            && (n > 0 ==> w.line.rate == f.rate && w.out == f.out
                          && v.left + w.accepted == (v.left + buf)[..f.taken] + w.line.left)
  {
    var n := FramesGiven(v, buf, room, size);
    if n > 0 {
      SettledConserves(v, buf, n, RateFlow(v.rate, (v.left + buf)[..n], room));
    }
  }

  /** All frames given to the resampler are accepted, and it takes all of them but for the one that is kept. */
  lemma WriteAcceptsGiven(v: Line, buf: seq<Frame>, room: nat, size: nat)
    requires |v.left| <= 1 && v.rate.Valid() && FitsIn(v.rate, room)
    ensures var (w, n) := (WriteOnce(v, buf, room, size), FramesGiven(v, buf, room, size));
            n > 0 ==> v.left + w.accepted == (v.left + buf)[..n]
                      && RateFlow(v.rate, (v.left + buf)[..n], room).taken + |w.line.left| == n
  {
    var n := FramesGiven(v, buf, room, size);
    LastLeft(v.rate, (v.left + buf)[..n], room);
  }

  /** A write goes on until all frames are accepted, the output is full, or its own buffer is. */
  lemma WriteFills(v: Line, buf: seq<Frame>, room: nat, size: nat)
    requires |v.left| <= 1 && v.rate.Valid() && FitsIn(v.rate, room) && size > 0
    ensures var w := WriteOnce(v, buf, room, size);
            |w.accepted| == |buf| || |w.out| == room || |v.left| + |w.accepted| == size
  {
    var n := FramesGiven(v, buf, room, size);
    WriteAcceptsGiven(v, buf, room, size);
    if room > 0 && n == FramesIn(v.rate, room) {
      if !v.rate.Passes() {
        FramesInIs(v.rate, room);
      }
      InPredicted(v.rate, (v.left + buf)[..n], room);
    }
  }

  ghost predicate AcceptsGiven(v: Line, buf: seq<Frame>, room: nat, size: nat, accepted: nat) {
    var n := FramesGiven(v, buf, room, size);
    FitsIn(v.rate, room) && n > 0 ==> |v.left| + accepted == n
  }

  lemma WriteAccepts(v: Line, buf: seq<Frame>, room: nat, size: nat)
    requires |v.left| <= 1 && v.rate.Valid()
    ensures AcceptsGiven(v, buf, room, size, |WriteOnce(v, buf, room, size).accepted|)
  {
    if FitsIn(v.rate, room) {
      WriteAcceptsGiven(v, buf, room, size);
    }
  }

  class SwVoiceOut {
    const rate: RateConverter
    const resample: array<Frame> // resample_buf
    const mix: array<Frame>      // mix_buf of the hardware voice
    var left: nat                // resample_buf.pos
    var mixPos: nat
    var live: nat                // total_hw_samples_mixed

    predicate Valid()
      reads this, rate
    {
      && rate.Valid() && mix != resample && 0 < resample.Length
      && mixPos < mix.Length && live <= mix.Length && left <= 1
    }

    constructor (rate: RateConverter, resample: array<Frame>, mix: array<Frame>)
      requires rate.Valid() && mix != resample && 0 < resample.Length && 0 < mix.Length
      ensures Valid() && this.rate == rate && this.resample == resample && this.mix == mix && left == 0 && live == 0
    {
      this.rate, this.resample, this.mix := rate, resample, mix;
      left, mixPos, live := 0, 0, 0;
    }

    function State(): Line
      requires Valid()
      reads this, rate, resample
    {
      Line(rate.State(), resample[..left])
    }

    function WritePos(): nat
      requires Valid()
      reads this, rate
    {
      (mixPos + live) % mix.Length
    }

    /** `st_rate_flow_mix` into the mixing buffer at `at`, on a part of the resample buffer */
    method RunAt(iat: nat, frames: nat, at: nat, room: nat, ghost input: seq<Frame>) returns (n: nat, m: nat)
      requires rate.Valid() && mix != resample && iat + frames <= resample.Length && at + room <= mix.Length
      requires input == resample[iat..iat + frames]
      modifies rate, mix
      ensures rate.Valid()
      ensures var f := RateFlow(old(rate.State()), input, room);
              && |f.out| <= room
              && Done(rate.State(), n, m, Ring(mix[..]))
                 == Done(f.rate, f.taken, |f.out|, Ring(Stored(old(mix[..]), at, f.out, true)))
    {
      n, m := rate.Run(resample, iat, frames, mix, at, room, true);
    }

    /** `audio_pcm_sw_resample_out`: one or two calls, and the same as one into an endless ring */
    method ResampleOut(framesIn: nat, framesOut: nat) returns (totalIn: nat, totalOut: nat)
      requires Valid() && framesIn <= resample.Length && framesOut <= mix.Length - live
      modifies rate, mix
      ensures rate.Valid()
      ensures Done(rate.State(), totalIn, totalOut, Ring(mix[..]))
              == Ran(old(rate.State()), old(resample[..framesIn]), framesOut, old(mix[..]), old(WritePos()))
    {
      ghost var (s, input, before) := (rate.State(), resample[..framesIn], mix[..]);
      var wpos := (mixPos + live) % mix.Length;
      var room := Smaller(framesOut, mix.Length - wpos);
      totalIn, totalOut := RunAt(0, framesIn, wpos, room, input);
      if totalIn < framesIn && wpos + totalOut == mix.Length {
        RanTwice(s, input, room, framesOut - room, framesOut, before, wpos);
        var n, m := RunAt(totalIn, framesIn - totalIn, 0, framesOut - room, input[totalIn..]);
        totalIn, totalOut := totalIn + n, totalOut + m;
      } else {
        RanOnce(s, input, room, framesOut, before, wpos);
      }
    }

    /** `sw->conv`: puts the new frames behind the one that was left. */
    method Fill(buf: seq<Frame>, n: nat)
      requires Valid() && n <= resample.Length && n <= left + |buf|
      modifies resample
      ensures resample[..n] == (old(resample[..left]) + buf)[..n]
      ensures resample[..left] == old(resample[..left])
    {
      ghost var all := resample[..left] + buf;
      var i := left;
      while i < n
        invariant left <= i && (i <= n || i == left) && forall k :: 0 <= k < i ==> resample[k] == all[k]
      {
        resample[i] := buf[i - left];
        i := i + 1;
      }
    }

    /** Keeps the frame that is left over, if it is just one, and says how many of the new frames are done with. */
    method Settle(n: nat, taken: nat, ghost v: Line, ghost buf: seq<Frame>, ghost f: Flowed) returns (accepted: nat)
      requires Valid() && taken == f.taken <= n <= resample.Length && 0 < n <= left + |buf|
      requires v.left == resample[..left] && resample[..n] == (v.left + buf)[..n]
      modifies this`left, resample
      ensures Valid() && resample[..left] == Settled(v, buf, n, f).line.left
              && accepted == |Settled(v, buf, n, f).accepted|
    {
      accepted := taken;
      if n - taken == 1 {
        assert resample[taken] == resample[..n][taken];
        resample[0] := resample[taken];
        accepted := accepted + 1 - left;
        left := 1;
      } else if accepted >= left {
        accepted := accepted - left;
        left := 0;
      }
    }

    /** The room for output: what is free in the mixing buffer, and in the hardware behind what has been mixed. */
    function Room(hwFree: nat): nat
      requires Valid()
      reads this, rate
    {
      Smaller(mix.Length - live, if hwFree > live then hwFree - live else 0)
    }

    /** `audio_pcm_sw_write` with the frames of `buf` converted; as far as the prediction fits its words, all frames
        that are given to the resampler are accepted. */
    method Write(buf: seq<Frame>, hwFree: nat) returns (accepted: nat)
      requires Valid()
      modifies this`left, this`live, rate, resample, mix
      ensures Valid()
      ensures var v := old(State());
              var w := if old(live) == mix.Length then Written(v, [], [])
                  else WriteOnce(v, buf, old(Room(hwFree)), resample.Length);
              && State() == w.line && accepted == |w.accepted| && live == old(live) + |w.out|
              && mix[..] == RingMixed(old(mix[..]), old(WritePos()), w.out)
      ensures old(live) < mix.Length ==> AcceptsGiven(old(State()), buf, old(Room(hwFree)), resample.Length, accepted)
    {
      ghost var (v, room) := (State(), Room(hwFree));
      accepted := WriteFrames(buf, hwFree);
      WriteAccepts(v, buf, room, resample.Length);
    }

    method WriteFrames(buf: seq<Frame>, hwFree: nat) returns (accepted: nat)
      requires Valid()
      modifies this`left, this`live, rate, resample, mix
      ensures Valid()
      ensures var v := old(State());
              var w := if old(live) == mix.Length then Written(v, [], [])
                  else WriteOnce(v, buf, old(Room(hwFree)), resample.Length);
              && State() == w.line && accepted == |w.accepted| && live == old(live) + |w.out|
              && mix[..] == RingMixed(old(mix[..]), old(WritePos()), w.out)
    {
      accepted := 0;
      RingNone(mix[..], WritePos());
      if live == mix.Length {
        return;
      }
      var outMax := Smaller(mix.Length - live, if hwFree > live then hwFree - live else 0);
      var swMax := FramesIn(rate.State(), outMax);
      var inMax := Smaller(swMax, Smaller(|buf| + left, resample.Length));
      if inMax == 0 {
        return;
      }
      accepted := Feed(buf, inMax, outMax);
    }

    method Feed(buf: seq<Frame>, inMax: nat, outMax: nat) returns (accepted: nat)
      requires Valid() && 0 < inMax <= resample.Length && inMax <= left + |buf| && outMax <= mix.Length - live
      modifies this`left, this`live, rate, resample, mix
      ensures Valid()
      ensures var v := old(State());
              var f := RateFlow(v.rate, (v.left + buf)[..inMax], outMax);
              && f.taken <= inMax
              && var w := Settled(v, buf, inMax, f);
                 && State() == w.line && accepted == |w.accepted| && live == old(live) + |w.out|
                 && mix[..] == RingMixed(old(mix[..]), old(WritePos()), w.out)
    {
      ghost var v := State();
      ghost var f := RateFlow(v.rate, (v.left + buf)[..inMax], outMax);
      Fill(buf, inMax);
      var totalIn, totalOut := ResampleOut(inMax, outMax);
      live := live + totalOut;
      accepted := Settle(inMax, totalIn, v, buf, f);
    }
  }

  lemma RingNone(ring: seq<Frame>, at: nat)
    requires at < |ring|
    ensures ring == RingMixed(ring, at, [])
  {
  }

  // ---- any series of writes ----

  datatype Request = Request(buf: seq<Frame>, room: nat)

  /** One more write after those that have led to `w` */
  function WriteMore(w: Written, r: Request, size: nat): (w': Written)
    requires |w.line.left| <= 1
    ensures |w'.line.left| <= 1
  {
    var x := WriteOnce(w.line, r.buf, r.room, size);
    Written(x.line, w.accepted + x.accepted, w.out + x.out)
  }

  /** A series of writes: what the last one leaves, and all that was accepted and made. */
  function WriteAll(w: Written, requests: seq<Request>, size: nat): Written
    requires |w.line.left| <= 1
    decreases |requests|
  {
    if requests == [] then w else WriteAll(WriteMore(w, requests[0], size), requests[1..], size)
  }

  /** The resampler is where a single call on all frames accepted would have left it, with the same output; only the
      last frame may be left. */
  ghost predicate AsOneCall(s: Rate, w: Written) {
    var (n, left) := (|w.accepted|, w.line.left);
    && |left| <= 1 && |left| <= n && left == w.accepted[n - |left|..]
    && RateFlow(s, w.accepted, |w.out|) == Flowed(w.line.rate, n - |left|, w.out)
  }

  lemma Begins(s: Rate)
    ensures AsOneCall(s, Written(Line(s, []), [], []))
  {
  }

  /** A call that has filled its room, and one that goes on with what it left */
  lemma FilledThenMore(s: Rate, a: seq<Frame>, b: seq<Frame>, r1: nat, r2: nat, total: nat)
    requires |RateFlow(s, a, r1).out| == r1 && r1 + r2 == total
    ensures var f := RateFlow(s, a, r1);
            f.taken <= |a| && RateFlow(s, a + b, total)
                == Joined(f.taken, f.out, RateFlow(f.rate, a[f.taken..] + b, r2))
  {
    RateFlowSplit(s, a, b, r1, r2);
  }

  lemma GoesOn(s: Rate, w: Written, more: seq<Frame>, f: Flowed, left: seq<Frame>)
    requires AsOneCall(s, w) && f == RateFlow(w.line.rate, w.line.left + more, |f.out|)
    requires |left| <= 1 && f.taken + |left| == |w.line.left + more| && left == (w.line.left + more)[f.taken..]
    ensures AsOneCall(s, Written(Line(f.rate, left), w.accepted + more, w.out + f.out))
  {
    FilledThenMore(s, w.accepted, more, |w.out|, |f.out|, |w.out + f.out|);
    assert (w.accepted + more)[|w.accepted| - |w.line.left|..] == w.line.left + more;
  }

  lemma WriteGoesOn(s: Rate, w: Written, r: Request, size: nat)
    requires AsOneCall(s, w) && w.line.rate.Valid() && FitsIn(w.line.rate, r.room)
    ensures AsOneCall(s, WriteMore(w, r, size))
  {
    var v := w.line;
    var (x, n) := (WriteOnce(v, r.buf, r.room, size), FramesGiven(v, r.buf, r.room, size));
    if n == 0 {
      assert w.accepted + [] == w.accepted && w.out + [] == w.out;
    } else {
      WriteConserves(v, r.buf, r.room, size);
      WriteAcceptsGiven(v, r.buf, r.room, size);
      RateFlowTrim(v.rate, v.left + x.accepted, r.room);
      GoesOn(s, w, x.accepted, RateFlow(v.rate, v.left + x.accepted, r.room), x.line.left);
    }
  }

  /** What holds of the rate whenever a write begins */
  ghost predicate Ready(rate: Rate, rooms: nat) {
    rate.Valid() && Fits(rate) && Predictable(rate.inc, rooms)
  }

  lemma WriteReady(w: Written, r: Request, size: nat, rooms: nat)
    requires |w.line.left| <= 1 && Ready(w.line.rate, rooms)
    ensures Ready(WriteMore(w, r, size).line.rate, rooms)
  {
    var v := w.line;
    if !v.rate.Passes() {
      FlowFits(v.rate, (v.left + r.buf)[..FramesGiven(v, r.buf, r.room, size)], r.room);
    }
  }

  lemma {:induction false} SeriesGoesOn(s: Rate, w: Written, requests: seq<Request>, size: nat, rooms: nat)
    requires AsOneCall(s, w) && Ready(w.line.rate, rooms)
    requires forall k :: 0 <= k < |requests| ==> requests[k].room <= rooms
    ensures AsOneCall(s, WriteAll(w, requests, size))
    decreases |requests|
  {
    if requests != [] {
      PredictableFits(w.line.rate, requests[0].room, rooms);
      WriteGoesOn(s, w, requests[0], size);
      WriteReady(w, requests[0], size, rooms);
      SeriesGoesOn(s, WriteMore(w, requests[0], size), requests[1..], size, rooms);
    }
  }

  /** Any series of writes makes of the frames that it accepts just what a single call of the resampler makes of them,
      and leaves the resampler in the same state: each accepted frame has entered it once and in order, but for a last
      one that is kept. */
  lemma WritesAsOneCall(s: Rate, requests: seq<Request>, size: nat, rooms: nat)
    requires Ready(s, rooms) && forall k :: 0 <= k < |requests| ==> requests[k].room <= rooms
    ensures AsOneCall(s, WriteAll(Written(Line(s, []), [], []), requests, size))
  {
    Begins(s);
    SeriesGoesOn(s, Written(Line(s, []), [], []), requests, size, rooms);
  }
}
