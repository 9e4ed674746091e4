/** The 32.32 fixed-point resampler: its loop, its closed form, and the frame counts predicted from it. */
module Resampler {
  import opened Alignment

  const ONE := 0x1_0000_0000
  const UINT_MAX := 0xffff_ffff

  /** `struct st_sample` */
  datatype Frame = Frame(l: int, r: int)

  /** `struct rate` */
  datatype Rate = Rate(opos: nat, inc: nat, ipos: nat, ilast: Frame) {
    /** How far the output position is past the input position. */
    function Phase(): int {
      opos - ipos * ONE
    }

    /** What every call of the resampler leaves true. */
    predicate Valid() {
      inc > 0 && ipos <= opos / ONE + 1
    }

    predicate Passes() {
      inc == ONE
    }
  }

  /** `st_rate_start` */
  function Start(inrate: nat, outrate: nat): Rate
    requires outrate > 0
  {
    Rate(0, inrate * ONE / outrate, 0, Frame(0, 0))
  }

  function Blend(a: int, b: int, t: nat): int {
    (a * (UINT_MAX - t) + b * t) / ONE
  }

  /** The frame at fraction `t` between two input frames. */
  function Interpolate(a: Frame, b: Frame, t: nat): Frame {
    Frame(Blend(a.l, b.l, t), Blend(a.r, b.r, t))
  }

  function Rebased(s: Rate): Rate {
    if s.ipos >= 0x10001 then s.(ipos := 1, opos := s.opos % ONE) else s
  }

  /** The state after a call, the input frames that it took and the output frames that it made. */
  datatype Flowed = Flowed(rate: Rate, taken: nat, out: seq<Frame>)

  /** The loop of `st_rate_flow`, one input frame or one output frame at a time. */
  function Flow(s: Rate, input: seq<Frame>, room: nat): (f: Flowed)
    ensures f.taken <= |input| && |f.out| <= room
    decreases |input| + room
  {
    if input == [] then Flowed(s, 0, [])
    else if s.ipos <= s.opos / ONE then
      var f := Flow(s.(ipos := s.ipos + 1, ilast := input[0]), input[1..], room);
      f.(taken := f.taken + 1)
    else if room == 0 then Flowed(s, 0, [])
    else
      var t := Rebased(s);
      var f := Flow(t.(opos := t.opos + t.inc), input, room - 1);
      f.(out := [Interpolate(s.ilast, input[0], t.opos % ONE)] + f.out)
  }

  // ---- the closed form, in terms of the phase ----

  function CeilDiv(d: int, inc: nat): nat
    requires inc > 0
  {
    if d <= 0 then 0
    else
      (d + inc - 1) / inc
  }

  /** How many output positions come before the last of `n` input frames. */
  function Ahead(phase: int, inc: nat, n: nat): nat
    requires inc > 0
  {
    CeilDiv((n - 1) * ONE - phase, inc)
  }

  /** Frame `q` of the stream that starts with the last frame taken before. */
  function StreamAt(last: Frame, input: seq<Frame>, q: nat): Frame
    requires q <= |input|
  {
    if q == 0 then last else input[q - 1]
  }

  /** The stream at position `p`, counted from the first frame that is still to be taken. */
  function Point(last: Frame, input: seq<Frame>, p: int): Frame
    requires -ONE <= p < (|input| - 1) * ONE
  {
    Interpolate(StreamAt(last, input, p / ONE + 1), StreamAt(last, input, p / ONE + 2), p % ONE)
  }

  lemma CeilDivStep(d: int, inc: nat)
    requires inc > 0
    ensures d > 0 ==> CeilDiv(d, inc) == 1 + CeilDiv(d - inc, inc)
  {
    if d > inc {
      Quotient(d - 1, inc);
      MulSucc((d - 1) / inc, inc);
      QuotientIs(d + inc - 1, (d - 1) / inc + 1, inc);
    } else if d > 0 {
      QuotientIs(d + inc - 1, 1, inc);
    }
  }

  /** There are more than `m` positions exactly if position `m` is still before the end. */
  lemma {:induction false} CeilDivMore(d: int, inc: nat, m: nat)
    requires inc > 0
    ensures CeilDiv(d, inc) > m <==> d > m * inc
  {
    CeilDivStep(d, inc);
    if d > 0 && m > 0 {
      CeilDivMore(d - inc, inc, m - 1);
      MulSucc(m, inc);
    } else if m > 0 {
      MulLe(0, m, inc);
    }
  }

  /** Everything a call does, without the loop. */
  ghost predicate Closed(s: Rate, input: seq<Frame>, room: nat, f: Flowed)
    requires s.Valid()
  {
    var total := Ahead(s.Phase(), s.inc, |input|);
    && |f.out| == (if room < total then room else total)
    && f.taken == (if room < total then (s.Phase() + room * s.inc) / ONE + 1 else |input|)
    && f.taken <= |input|
    && f.rate.Valid() && f.rate.inc == s.inc && f.rate.ilast == StreamAt(s.ilast, input, f.taken)
    && f.rate.Phase() == s.Phase() + |f.out| * s.inc - f.taken * ONE
    && OutOk(s.ilast, input, s.Phase(), s.inc, f.out)
  }

  ghost predicate OutOk(last: Frame, input: seq<Frame>, phase: int, inc: nat, out: seq<Frame>) {
    forall j :: 0 <= j < |out| ==> PointOk(last, input, phase + j * inc, out[j])
  }

  ghost predicate PointOk(last: Frame, input: seq<Frame>, p: int, f: Frame) {
    -ONE <= p < (|input| - 1) * ONE && f == Point(last, input, p)
  }

  lemma {:induction false} FlowClosed(s: Rate, input: seq<Frame>, room: nat)
    requires s.Valid()
    ensures Closed(s, input, room, Flow(s, input, room))
    decreases |input| + room
  {
    if input == [] || (s.ipos > s.opos / ONE && room == 0) {
      StopClosed(s, input, room);
    } else if s.ipos <= s.opos / ONE {
      var u := s.(ipos := s.ipos + 1, ilast := input[0]);
      FlowClosed(u, input[1..], room);
      TakeClosed(s, input, room, Flow(u, input[1..], room));
    } else {
      var u := Emitted(s);
      EmittedValid(s);
      FlowClosed(u, input, room - 1);
      EmitClosed(s, input, room, Flow(u, input, room - 1));
    }
  }

  /** The state after an output frame */
  function Emitted(s: Rate): Rate {
    var t := Rebased(s);
    t.(opos := t.opos + t.inc)
  }

  lemma EmittedValid(s: Rate)
    requires s.Valid() && s.ipos > s.opos / ONE
    ensures Emitted(s).Valid()
  {
    RebasedSame(s);
  }

  lemma StopClosed(s: Rate, input: seq<Frame>, room: nat)
    requires s.Valid() && (input == [] || (s.ipos > s.opos / ONE && room == 0))
    ensures Closed(s, input, room, Flowed(s, 0, []))
  {
    CeilDivMore((|input| - 1) * ONE - s.Phase(), s.inc, 0);
  }

  /** Once a frame is taken, positions are counted from the next one. */
  lemma PointTaken(last: Frame, input: seq<Frame>, p: int, f: Frame)
    requires input != [] && PointOk(input[0], input[1..], p - ONE, f)
    ensures PointOk(last, input, p, f)
  {
    assert (p - ONE) / ONE == p / ONE - 1 && (p - ONE) % ONE == p % ONE;
  }

  lemma TakeClosed(s: Rate, input: seq<Frame>, room: nat, f: Flowed)
    requires s.Valid() && input != [] && s.ipos <= s.opos / ONE
    requires Closed(s.(ipos := s.ipos + 1, ilast := input[0]), input[1..], room, f)
    ensures Closed(s, input, room, f.(taken := f.taken + 1))
  {
    forall j | 0 <= j < |f.out| ensures PointOk(s.ilast, input, s.Phase() + j * s.inc, f.out[j]) {
      PointTaken(s.ilast, input, s.Phase() + j * s.inc, f.out[j]);
    }
  }

  /** Rebasing is invisible: the phase stays, and so does the fraction. */
  lemma RebasedSame(s: Rate)
    requires s.ipos == s.opos / ONE + 1
    ensures var t := Rebased(s);
            t.Phase() == s.Phase() && t.opos % ONE == s.opos % ONE && t.ipos == t.opos / ONE + 1 && t.inc == s.inc
                && t.ilast == s.ilast
  {
  }

  lemma EmittedOk(last: Frame, input: seq<Frame>, phase: int, inc: nat, first: Frame, out: seq<Frame>)
    requires PointOk(last, input, phase, first) && OutOk(last, input, phase + inc, inc, out)
    ensures OutOk(last, input, phase, inc, [first] + out)
  {
    forall j | 0 <= j < |[first] + out| ensures PointOk(last, input, phase + j * inc, ([first] + out)[j]) {
      if j > 0 {
        MulSucc(j, inc);
        assert PointOk(last, input, phase + inc + (j - 1) * inc, out[j - 1]);
      }
    }
  }

  lemma EmitClosed(s: Rate, input: seq<Frame>, room: nat, f: Flowed)
    requires s.Valid() && input != [] && s.ipos > s.opos / ONE && room > 0
    requires Emitted(s).Valid() && Closed(Emitted(s), input, room - 1, f)
    ensures Closed(s, input, room, f.(out := [Interpolate(s.ilast, input[0], Rebased(s).opos % ONE)] + f.out))
  {
    var (phase, inc) := (s.Phase(), s.inc);
    RebasedSame(s);
    CeilDivStep((|input| - 1) * ONE - phase, inc);
    EmittedOk(s.ilast, input, phase, inc, Interpolate(s.ilast, input[0], s.opos % ONE), f.out);
    MulSucc(room, inc);
    MulSucc(|f.out| + 1, inc);
  }

  // ---- predictions ----

  const U32 := 0x1_0000_0000
  const U64 := 0x1_0000_0000_0000_0000

  /** A whole call: equal rates pass frames through. */
  function RateFlow(s: Rate, input: seq<Frame>, room: nat): Flowed {
    if s.Passes() then
      var n := if |input| > room then room else |input|;
      Flowed(s, n, input[..n])
    else Flow(s, input, room)
  }

  /** `st_rate_frames_out`, in 32 and 64 bit words */
  function FramesOut(s: Rate, n: nat): nat
    requires s.inc > 0
  {
    if s.Passes() then n
    else if n == 0 then 0
    else
      Positions((s.ipos - 1 + n) % U32 * ONE, s.opos, s.inc)
  }

  /** The output positions from `opos` up to `oposEnd`, in 64 bit words */
  function Positions(oposEnd: nat, opos: nat, inc: nat): nat
    requires inc > 0
  {
    if (oposEnd + inc) % U64 <= opos then 0 else WholeSteps((oposEnd - opos + inc) % U64, inc)
  }

  function WholeSteps(delta: nat, inc: nat): nat
    requires inc > 0
  {
    var frames := delta / inc % U32;
    if delta % inc != 0 then frames else (frames - 1) % U32
  }

  /** `st_rate_frames_in`, in 32 and 64 bit words; for no output it starts from a later position. */
  function FramesIn(s: Rate, m: nat): nat {
    if s.Passes() then m
    else if m > 0 then InputFrames(s.opos, s.ipos, s.inc, m)
    else
      LaterFrames(s.opos, s.ipos, s.inc, Up(s.inc, ONE) % U64)
  }

  function LaterFrames(opos: nat, ipos: nat, inc: nat, offset: nat): nat {
    InputFrames((opos + offset) % U64, (ipos + offset / ONE) % U32, inc, 0)
  }

  /** The input frames from `ipos` on that are needed for `m` output frames from `opos` on */
  function InputFrames(opos: nat, ipos: nat, inc: nat, m: nat): nat {
    var oposEnd := (opos - inc + inc * m) % U64;
    var iposEnd := (oposEnd / ONE + 1) % U32;
    if (iposEnd + 1) % U32 > ipos then (iposEnd + 1) % U32 - ipos else 0
  }

  /** No word overflows while `n` input frames are predicted. */
  ghost predicate FitsOut(s: Rate, n: nat)
    requires s.inc > 0
  {
    s.ipos + n <= U32 && FitsEnd((s.ipos - 1 + n) * ONE, s.inc)
  }

  ghost predicate FitsEnd(oposEnd: int, inc: nat)
    requires inc > 0
  {
    oposEnd + inc < U64 && (oposEnd + inc) / inc < U32
  }

  lemma DivLe(a: int, b: int, d: nat)
    requires d > 0 && a <= b
    ensures a / d <= b / d
  {
    Quotient(a, d);
    Quotient(b, d);
    if a / d > b / d {
      MulLe(b / d + 1, a / d, d);
      MulSucc(b / d, d);
    }
  }

  /** Quotient and remainder of a sum one `inc` too high give the number of positions. */
  lemma CeilFromDelta(d: int, inc: nat)
    requires inc > 0 && d + inc > 0
    ensures CeilDiv(d, inc) == if (d + inc) % inc != 0 then (d + inc) / inc else (d + inc) / inc - 1
  {
    var delta := d + inc;
    Quotient(delta, inc);
    var q := delta / inc;
    MulSucc(q, inc);
    if d <= 0 {
      QuotientIs(delta, if d == 0 then 1 else 0, inc);
    } else if delta % inc != 0 {
      QuotientIs(d + inc - 1, q, inc);
    } else {
      QuotientIs(d + inc - 1, q - 1, inc);
    }
  }

  lemma WholeStepsIs(delta: nat, inc: nat)
    requires inc > 0 && delta > 0 && delta / inc < U32
    ensures WholeSteps(delta, inc) == CeilDiv(delta - inc, inc)
  {
    CeilFromDelta(delta - inc, inc);
    FramesWord(delta / inc, delta % inc, CeilDiv(delta - inc, inc));
  }

  lemma FramesWord(q: int, r: int, ceil: nat)
    requires q < U32 && ceil == if r != 0 then q else q - 1
    ensures (if r != 0 then q % U32 else (q % U32 - 1) % U32) == ceil
  {
  }

  lemma Word64(x: nat)
    requires x < U64
    ensures x % U64 == x
  {
  }

  lemma PositionsIs(oposEnd: nat, opos: nat, inc: nat)
    requires inc > 0 && FitsEnd(oposEnd, inc)
    ensures Positions(oposEnd, opos, inc) == CeilDiv(oposEnd - opos, inc)
  {
    if oposEnd + inc > opos {
      var delta := oposEnd - opos + inc;
      Word64(delta);
      Word64(oposEnd + inc);
      assert delta / inc < U32 by {
        DivLe(delta, oposEnd + inc, inc);
      }
      WholeStepsIs(delta, inc);
    }
  }

  lemma FramesOutIs(s: Rate, n: nat)
    requires s.Valid() && !s.Passes() && FitsOut(s, n)
    ensures FramesOut(s, n) == Ahead(s.Phase(), s.inc, n)
  {
    if n > 0 {
      assert (s.ipos - 1 + n) % U32 == s.ipos - 1 + n;
      PositionsIs((s.ipos - 1 + n) * ONE, s.opos, s.inc);
      assert (s.ipos - 1 + n) * ONE - s.opos == (n - 1) * ONE - s.Phase();
    }
  }

  /** With room enough, a call makes exactly the frames that were predicted, and takes all input. */
  lemma OutPredicted(s: Rate, input: seq<Frame>, room: nat)
    requires s.Valid() && FitsOut(s, |input|) && FramesOut(s, |input|) <= room
    ensures var f := RateFlow(s, input, room); |f.out| == FramesOut(s, |input|) && f.taken == |input|
  {
    if !s.Passes() {
      FramesOutIs(s, |input|);
      FlowClosed(s, input, room);
    }
  }

  /** No word overflows while the input for `m` frames is predicted. */
  ghost predicate FitsIn(s: Rate, m: nat) {
    if m > 0 then
      s.opos + (m - 1) * s.inc < U64 && (s.opos + (m - 1) * s.inc) / ONE + 2 < U32
    else
      s.opos + Up(s.inc, ONE) < (U32 - 2) * ONE
  }

  lemma FramesInIs(s: Rate, m: nat)
    requires s.Valid() && !s.Passes() && m > 0 && FitsIn(s, m)
    ensures FramesIn(s, m) == (s.Phase() + (m - 1) * s.inc) / ONE + 2 && FramesIn(s, m) > 0
  {
    var oposEnd := s.opos + (m - 1) * s.inc;
    assert s.opos - s.inc + s.inc * m == oposEnd && oposEnd >= s.opos by {
      MulSucc(m, s.inc);
      MulLe(0, m - 1, s.inc);
    }
    InputWord(oposEnd, s.opos, s.ipos);
    assert s.Phase() + (m - 1) * s.inc == oposEnd - s.ipos * ONE;
  }

  lemma InputWord(oposEnd: nat, opos: nat, ipos: nat)
    requires opos <= oposEnd < U64 && ipos <= opos / ONE + 1 && oposEnd / ONE + 2 < U32
    ensures var iposEnd := (oposEnd % U64 / ONE + 1) % U32;
            (iposEnd + 1) % U32 > ipos && (iposEnd + 1) % U32 - ipos == (oposEnd - ipos * ONE) / ONE + 2
  {
    Word64(oposEnd);
    var q := oposEnd / ONE;
    assert (q + 1) % U32 == q + 1 && (q + 2) % U32 == q + 2;
    assert (oposEnd - ipos * ONE) / ONE == q - ipos;
  }

  /** With no output wanted the prediction is the same formula, cut off at zero. */
  lemma FramesInNone(s: Rate)
    requires s.Valid() && !s.Passes() && FitsIn(s, 0)
    ensures var n := (s.Phase() - s.inc) / ONE + 2; FramesIn(s, 0) == if n > 0 then n else 0
  {
    var offset := Up(s.inc, ONE);
    UpIs(s.inc, ONE);
    Word64(offset);
    LaterIs(s.opos, s.ipos, s.inc, offset);
  }

  lemma LaterIs(opos: nat, ipos: nat, inc: nat, offset: nat)
    requires ipos <= opos / ONE + 1 && inc <= offset && offset % ONE == 0 && opos + offset < (U32 - 2) * ONE
    ensures LaterFrames(opos, ipos, inc, offset) == var n := (opos - ipos * ONE - inc) / ONE + 2; if n > 0 then n else 0
  {
    var k := offset / ONE;
    assert offset == k * ONE;
    Word64(opos + offset);
    assert (ipos + k) % U32 == ipos + k;
    InputNone(opos + offset, inc, ipos + k);
    assert (opos + offset - inc - (ipos + k) * ONE) == opos - ipos * ONE - inc;
  }

  lemma InputNone(opos: nat, inc: nat, ipos: nat)
    requires inc <= opos < (U32 - 2) * ONE
    ensures InputFrames(opos, ipos, inc, 0) == var n := (opos - inc - ipos * ONE) / ONE + 2; if n > 0 then n else 0
  {
    Word64(opos - inc);
    var q := (opos - inc) / ONE;
    assert (q + 1) % U32 == q + 1 && (q + 2) % U32 == q + 2;
    assert (opos - inc - ipos * ONE) / ONE == q - ipos;
  }

  /** `n` input frames give at least `m` output frames exactly if `n` is at least the predicted number. */
  lemma InPredicted(s: Rate, input: seq<Frame>, m: nat)
    requires s.Valid() && m > 0 && FitsIn(s, m)
    ensures |RateFlow(s, input, m).out| == m <==> |input| >= FramesIn(s, m)
  {
    if !s.Passes() {
      FramesInIs(s, m);
      FlowClosed(s, input, m);
      var n := |input|;
      CeilDivMore((n - 1) * ONE - s.Phase(), s.inc, m - 1);
    }
  }

  lemma PredictedAtMost(s: Rate, m: nat, n: nat)
    requires s.Valid() && !s.Passes() && FitsIn(s, m) && 0 < n <= FramesIn(s, m)
    ensures n <= (s.Phase() + m * s.inc) / ONE + 2
  {
    if m > 0 {
      FramesInIs(s, m);
      MulSucc(m, s.inc);
    } else {
      FramesInNone(s);
    }
    DivLe(s.Phase() + m * s.inc - s.inc, s.Phase() + m * s.inc, ONE);
  }

  /** Of no more input than predicted, at most the last frame is not taken. */
  lemma LastLeft(s: Rate, input: seq<Frame>, m: nat)
    requires s.Valid() && FitsIn(s, m) && |input| <= FramesIn(s, m)
    ensures var f := RateFlow(s, input, m); f.taken <= |input| <= f.taken + 1
  {
    if !s.Passes() && input != [] {
      PredictedAtMost(s, m, |input|);
      FlowClosed(s, input, m);
    }
  }

  /** Room that was not used makes no difference. */
  lemma {:induction false} FlowTrim(s: Rate, input: seq<Frame>, room: nat)
    ensures Flow(s, input, |Flow(s, input, room).out|) == Flow(s, input, room)
    decreases |input| + room
  {
    if input != [] {
      if s.ipos <= s.opos / ONE {
        FlowTrim(s.(ipos := s.ipos + 1, ilast := input[0]), input[1..], room);
      } else if room > 0 {
        var t := Rebased(s);
        FlowTrim(t.(opos := t.opos + t.inc), input, room - 1);
      }
    }
  }

  lemma RateFlowTrim(s: Rate, input: seq<Frame>, room: nat)
    ensures RateFlow(s, input, |RateFlow(s, input, room).out|) == RateFlow(s, input, room)
  {
    if !s.Passes() {
      FlowTrim(s, input, room);
    }
  }

  // ---- continuity ----

  /** A call that has taken `taken` frames and made `out`, and goes on as `f` does. */
  function Joined(taken: nat, out: seq<Frame>, f: Flowed): Flowed {
    Flowed(f.rate, taken + f.taken, out + f.out)
  }

  /** What one call leaves, the next one goes on with. */
  ghost predicate Splits(s: Rate, a: seq<Frame>, b: seq<Frame>, r1: nat, r2: nat) {
    var f := Flow(s, a, r1);
    Flow(s, a + b, r1 + r2) == Joined(f.taken, f.out, Flow(f.rate, a[f.taken..] + b, r1 - |f.out| + r2))
  }

  lemma TakeSplits(s: Rate, a: seq<Frame>, b: seq<Frame>, r1: nat, r2: nat)
    requires a != [] && s.ipos <= s.opos / ONE && Splits(s.(ipos := s.ipos + 1, ilast := a[0]), a[1..], b, r1, r2)
    ensures Splits(s, a, b, r1, r2)
  {
    assert (a + b)[1..] == a[1..] + b;
    var f := Flow(s.(ipos := s.ipos + 1, ilast := a[0]), a[1..], r1);
    assert a[1..][f.taken..] == a[f.taken + 1..];
  }

  lemma MakeSplits(s: Rate, a: seq<Frame>, b: seq<Frame>, r1: nat, r2: nat)
    requires a != [] && s.ipos > s.opos / ONE && r1 > 0
    requires var t := Rebased(s); Splits(t.(opos := t.opos + t.inc), a, b, r1 - 1, r2)
    ensures Splits(s, a, b, r1, r2)
  {
    var t := Rebased(s);
    var f := Flow(t.(opos := t.opos + t.inc), a, r1 - 1);
    var g := Flow(f.rate, a[f.taken..] + b, r1 - 1 - |f.out| + r2);
    var x := Interpolate(s.ilast, a[0], t.opos % ONE);
    assert r1 - 1 - |f.out| + r2 == r1 - |[x] + f.out| + r2;
    assert [x] + (f.out + g.out) == ([x] + f.out) + g.out;
  }

  /** Cutting input or output anywhere makes no difference. */
  lemma {:induction false} FlowSplit(s: Rate, a: seq<Frame>, b: seq<Frame>, r1: nat, r2: nat)
    ensures Splits(s, a, b, r1, r2)
    decreases |a| + r1
  {
    if a == [] {
      assert a + b == b && a[0..] + b == b;
      assert [] + Flow(s, b, r1 + r2).out == Flow(s, b, r1 + r2).out;
    } else if s.ipos <= s.opos / ONE {
      FlowSplit(s.(ipos := s.ipos + 1, ilast := a[0]), a[1..], b, r1, r2);
      TakeSplits(s, a, b, r1, r2);
    } else if r1 == 0 {
      assert a[0..] == a && [] + Flow(s, a + b, r2).out == Flow(s, a + b, r2).out;
    } else {
      var t := Rebased(s);
      FlowSplit(t.(opos := t.opos + t.inc), a, b, r1 - 1, r2);
      MakeSplits(s, a, b, r1, r2);
    }
  }

  lemma RateFlowSplit(s: Rate, a: seq<Frame>, b: seq<Frame>, r1: nat, r2: nat)
    ensures var f := RateFlow(s, a, r1);
            && f.taken <= |a| && |f.out| <= r1
            && var g := RateFlow(f.rate, a[f.taken..] + b, r1 - |f.out| + r2);
               RateFlow(s, a + b, r1 + r2) == Joined(f.taken, f.out, g)
  {
    if !s.Passes() {
      FlowSplit(s, a, b, r1, r2);
      FlowInc(s, a, r1);
    }
  }

  lemma {:induction false} FlowInc(s: Rate, a: seq<Frame>, room: nat)
    ensures Flow(s, a, room).rate.inc == s.inc
    decreases |a| + room
  {
    if a != [] {
      if s.ipos <= s.opos / ONE {
        FlowInc(s.(ipos := s.ipos + 1, ilast := a[0]), a[1..], room);
      } else if room > 0 {
        var t := Rebased(s);
        FlowInc(t.(opos := t.opos + t.inc), a, room - 1);
      }
    }
  }

  /** One call of a series: how many of the next input frames it is given, and how much room. */
  datatype Call = Call(frames: nat, room: nat)

  /** A series of calls on a stream, of which `pos` frames have been taken and made into `out` so far;
      each call is given frames that no call has taken yet. */
  function Series(s: Rate, stream: seq<Frame>, pos: nat, out: seq<Frame>, calls: seq<Call>): Flowed
    requires pos <= |stream|
    decreases |calls|
  {
    if calls == [] then Flowed(s, pos, out)
    else
      var f := RateFlow(s, Given(stream, pos, calls[0].frames), calls[0].room);
      Series(f.rate, stream, pos + f.taken, out + f.out, calls[1..])
  }

  function Given(stream: seq<Frame>, pos: nat, frames: nat): seq<Frame>
    requires pos <= |stream|
  {
    stream[pos..if frames < |stream| - pos then pos + frames else |stream|]
  }

  function Rooms(calls: seq<Call>): nat {
    if calls == [] then 0 else calls[0].room + Rooms(calls[1..])
  }

  /** The whole stream in one call, as far as a series of calls has got. */
  ghost predicate OnTrack(all: Flowed, s: Rate, stream: seq<Frame>, pos: nat, out: seq<Frame>, room: nat) {
    pos <= |stream| && |out| <= room && all == Joined(pos, out, RateFlow(s, stream[pos..], room - |out|))
  }

  lemma GivenThenRest(stream: seq<Frame>, pos: nat, frames: nat, t: nat)
    requires pos <= |stream| && t <= |Given(stream, pos, frames)|
    ensures var a := Given(stream, pos, frames);
            var b := stream[pos + |a|..];
            a + b == stream[pos..] && a[t..] + b == stream[pos + t..]
  {
  }

  lemma Advance(all: Flowed, s: Rate, stream: seq<Frame>, pos: nat, out: seq<Frame>, room: nat, c: Call)
    requires OnTrack(all, s, stream, pos, out, room) && |out| + c.room <= room
    ensures var f := RateFlow(s, Given(stream, pos, c.frames), c.room);
            |f.out| <= c.room && OnTrack(all, f.rate, stream, pos + f.taken, out + f.out, room)
  {
    var a := Given(stream, pos, c.frames);
    var (b, rest) := (stream[pos + |a|..], room - |out| - c.room);
    RateFlowSplit(s, a, b, c.room, rest);
    var f := RateFlow(s, a, c.room);
    GivenThenRest(stream, pos, c.frames, f.taken);
    var n := c.room - |f.out| + rest;
    assert n == room - |out + f.out|;
    JoinedTwice(pos, out, f.taken, f.out, RateFlow(f.rate, stream[pos + f.taken..], n));
  }

  lemma JoinedTwice(t1: nat, o1: seq<Frame>, t2: nat, o2: seq<Frame>, f: Flowed)
    ensures Joined(t1, o1, Joined(t2, o2, f)) == Joined(t1 + t2, o1 + o2, f)
  {
    assert o1 + (o2 + f.out) == (o1 + o2) + f.out;
  }

  /** A stream cut into any calls comes out as it would from a single call, which would go on just as the series
      would. */
  lemma {:induction false} StreamContinuous(all: Flowed, s: Rate, stream: seq<Frame>, pos: nat, out: seq<Frame>,
      calls: seq<Call>, room: nat)
    requires OnTrack(all, s, stream, pos, out, room) && |out| + Rooms(calls) <= room
    ensures var f := Series(s, stream, pos, out, calls); OnTrack(all, f.rate, stream, f.taken, f.out, room)
    decreases |calls|
  {
    if calls != [] {
      Advance(all, s, stream, pos, out, room, calls[0]);
      var f := RateFlow(s, Given(stream, pos, calls[0].frames), calls[0].room);
      StreamContinuous(all, f.rate, stream, pos + f.taken, out + f.out, calls[1..], room);
    }
  }

  /** From the start: the outputs of the series are the first outputs of the single call. */
  lemma SeriesPrefix(s: Rate, stream: seq<Frame>, calls: seq<Call>, room: nat)
    requires Rooms(calls) <= room
    ensures var f := Series(s, stream, 0, [], calls);
            f.taken <= |stream| && f.out <= RateFlow(s, stream, room).out && f.taken <= RateFlow(s, stream, room).taken
  {
    var all := RateFlow(s, stream, room);
    assert stream[0..] == stream && [] + all.out == all.out;
    StreamContinuous(all, s, stream, 0, [], calls, room);
  }

  // ---- the loop itself ----

  const INT_MAX := 0x7fff_ffff

  /** Bounds that keep `opos` within 64 bits and `ipos` within 32 bits, whatever is fed. */
  predicate Fits(s: Rate) {
    s.inc < INT_MAX * ONE + ONE && s.opos < 0x10000 * ONE + s.inc
  }

  lemma FitsWords(s: Rate)
    requires s.Valid() && Fits(s)
    ensures s.opos < U64 && s.ipos < U32
  {
  }

  lemma {:induction false} FlowFits(s: Rate, input: seq<Frame>, room: nat)
    requires s.Valid() && Fits(s)
    ensures var t := Flow(s, input, room).rate; t.Valid() && Fits(t) && t.inc == s.inc
    decreases |input| + room
  {
    if input != [] {
      if s.ipos <= s.opos / ONE {
        FlowFits(s.(ipos := s.ipos + 1, ilast := input[0]), input[1..], room);
      } else if room > 0 {
        var t := Rebased(s);
        FlowFits(t.(opos := t.opos + t.inc), input, room - 1);
      }
    }
  }

  /** Positions and step sizes for which the input for up to `size` frames can be predicted whenever it is asked for */
  predicate Predictable(inc: nat, size: nat) {
    0x10001 * ONE + (size + 2) * inc <= (U32 - 2) * ONE
  }

  lemma PredictableFits(s: Rate, m: nat, size: nat)
    requires Fits(s) && m <= size && Predictable(s.inc, size)
    ensures FitsIn(s, m)
  {
    UpIs(s.inc, ONE);
    MulLe(2, size + 2, s.inc);
    MulLe(m, size, s.inc);
    MulSucc(m, s.inc);
    assert (size + 2) * s.inc == size * s.inc + 2 * s.inc;
    if m > 0 {
      DivLe(s.opos + (m - 1) * s.inc, (U32 - 2) * ONE - 1, ONE);
    }
  }

  /** Samples of 32 bits stay samples of 32 bits, and the sum before the shift fits 64 bits. */
  lemma BlendFits(a: int, b: int, t: nat)
    requires -INT_MAX - 1 <= a <= INT_MAX && -INT_MAX - 1 <= b <= INT_MAX && t <= UINT_MAX
    ensures -INT_MAX - 1 <= Blend(a, b, t) <= INT_MAX
    ensures -U64 / 2 <= a * (UINT_MAX - t) + b * t < U64 / 2
  {
    MulLe(-INT_MAX - 1, a, UINT_MAX - t);
    MulLe(a, INT_MAX, UINT_MAX - t);
    MulLe(-INT_MAX - 1, b, t);
    MulLe(b, INT_MAX, t);
  }

  predicate Sample(x: int) {
    -INT_MAX - 1 <= x <= INT_MAX
  }

  predicate Samples(f: Frame) {
    Sample(f.l) && Sample(f.r)
  }

  lemma BlendSum(a: int, b: int, t: nat)
    ensures a * (UINT_MAX - t) + b * t == a * UINT_MAX + (b - a) * t
  {
  }

  /** `v` is the value at fraction `t` of the line from `a` to `b`, up to one and a half, in units of 1/ONE. */
  predicate Near(a: int, b: int, t: nat, v: int) {
    var line := a * ONE + (b - a) * t;
    line - ONE - ONE / 2 < v * ONE <= line + ONE / 2
  }

  /** Interpolation is linear: no result is further than one and a half from the line. */
  lemma BlendNear(a: int, b: int, t: nat)
    requires Sample(a) && Sample(b)
    ensures Near(a, b, t, Blend(a, b, t))
  {
    BlendSum(a, b, t);
    Quotient(a * (UINT_MAX - t) + b * t, ONE);
  }

  /** At a whole position it is the sample there, less at most one. */
  lemma BlendWhole(a: int, b: int)
    requires Sample(a)
    ensures a - 1 <= Blend(a, b, 0) <= a
  {
    Quotient(a * UINT_MAX, ONE);
  }

  predicate Between(a: int, b: int, v: int) {
    if a <= b then a - 1 <= v <= b else b - 1 <= v <= a
  }

  /** Elsewhere it is between the two samples, but for at most one less. */
  lemma BlendBetween(a: int, b: int, t: nat)
    requires Sample(a) && Sample(b) && t <= UINT_MAX
    ensures Between(a, b, Blend(a, b, t))
  {
    var (lo, hi) := if a <= b then (a, b) else (b, a);
    var sum := a * (UINT_MAX - t) + b * t;
    MulLe(lo, a, UINT_MAX - t);
    MulLe(a, hi, UINT_MAX - t);
    MulLe(lo, b, t);
    MulLe(b, hi, t);
    BlendSum(lo, lo, t);
    BlendSum(hi, hi, t);
    assert lo * UINT_MAX <= sum <= hi * UINT_MAX;
    Quotient(sum, ONE);
  }

  /** And it moves from the first sample towards the second. */
  lemma BlendMonotone(a: int, b: int, t: nat, u: nat)
    requires t <= u
    ensures a <= b ==> Blend(a, b, t) <= Blend(a, b, u)
    ensures a >= b ==> Blend(a, b, t) >= Blend(a, b, u)
  {
    BlendSum(a, b, t);
    BlendSum(a, b, u);
    if a <= b {
      MulLe(t, u, b - a);
      DivLe(a * (UINT_MAX - t) + b * t, a * (UINT_MAX - u) + b * u, ONE);
    }
    if a >= b {
      MulLe(t, u, a - b);
      assert (b - a) * t == -((a - b) * t) && (b - a) * u == -((a - b) * u);
      DivLe(a * (UINT_MAX - u) + b * u, a * (UINT_MAX - t) + b * t, ONE);
    }
  }

  /** The frames of the stream before and after position `p` */
  function Before(last: Frame, input: seq<Frame>, p: int): Frame
    requires -ONE <= p < (|input| - 1) * ONE
  {
    StreamAt(last, input, p / ONE + 1)
  }

  function Following(last: Frame, input: seq<Frame>, p: int): Frame
    requires -ONE <= p < (|input| - 1) * ONE
  {
    StreamAt(last, input, p / ONE + 2)
  }

  /** What a frame that is played at position `p` is in terms of the two frames around it */
  ghost predicate Plays(a: Frame, b: Frame, t: nat, f: Frame) {
    && Near(a.l, b.l, t, f.l) && Near(a.r, b.r, t, f.r)
    && Between(a.l, b.l, f.l) && Between(a.r, b.r, f.r)
    && (t == 0 ==> a.l - 1 <= f.l <= a.l && a.r - 1 <= f.r <= a.r)
  }

  lemma InterpolatePlays(a: Frame, b: Frame, t: nat)
    requires Samples(a) && Samples(b) && t <= UINT_MAX
    ensures Plays(a, b, t, Interpolate(a, b, t))
  {
    BlendNear(a.l, b.l, t);
    BlendNear(a.r, b.r, t);
    BlendBetween(a.l, b.l, t);
    BlendBetween(a.r, b.r, t);
    BlendWhole(a.l, b.l);
    BlendWhole(a.r, b.r);
  }

  /** Output frame `j` of a call is on the line between the two input frames around its position, up to one and a half;
      at a whole position it is the frame there, less at most one. */
  lemma FlowPlays(s: Rate, input: seq<Frame>, room: nat, j: nat)
    requires s.Valid() && Samples(s.ilast) && (forall f :: f in input ==> Samples(f))
    requires j < |Flow(s, input, room).out|
    ensures var p := s.Phase() + j * s.inc;
            && -ONE <= p < (|input| - 1) * ONE
            && Plays(Before(s.ilast, input, p), Following(s.ilast, input, p), p % ONE, Flow(s, input, room).out[j])
  {
    FlowClosed(s, input, room);
    var p := s.Phase() + j * s.inc;
    assert PointOk(s.ilast, input, p, Flow(s, input, room).out[j]);
    InterpolatePlays(Before(s.ilast, input, p), Following(s.ilast, input, p), p % ONE);
  }

  /** The step is the ratio of the rates, rounded down; equal rates pass frames through. In `m` steps less than `m` of
      the smallest units are lost. */
  lemma StartStep(inrate: nat, outrate: nat, m: nat)
    requires outrate > 0
    ensures var inc := Start(inrate, outrate).inc;
            && inc * outrate <= inrate * ONE < (inc + 1) * outrate
            && (inrate == outrate ==> Start(inrate, outrate).Passes())
            && 0 <= m * inrate * ONE - m * inc * outrate <= m * outrate
  {
    var inc := Start(inrate, outrate).inc;
    Quotient(inrate * ONE, outrate);
    if inrate == outrate {
      QuotientIs(inrate * ONE, ONE, outrate);
    }
    StepsLost(inrate, outrate, inc, m);
  }

  lemma StepsLost(inrate: nat, outrate: nat, inc: nat, m: nat)
    requires inc * outrate <= inrate * ONE < (inc + 1) * outrate
    ensures 0 <= m * inrate * ONE - m * inc * outrate <= m * outrate
  {
    MulLe(0, inrate * ONE - inc * outrate, m);
    MulLe(inrate * ONE - inc * outrate, outrate, m);
    assert m * inrate * ONE - m * inc * outrate == m * (inrate * ONE - inc * outrate);
  }

  /** `OP`: the mixing variant adds to what is there. */
  function Put(was: Frame, f: Frame, mix: bool): Frame {
    if mix then Frame(was.l + f.l, was.r + f.r) else f
  }

  function Stored(buf: seq<Frame>, at: nat, out: seq<Frame>, mix: bool): (r: seq<Frame>)
    requires at + |out| <= |buf|
    ensures |r| == |buf|
  {
    seq(|buf|, i requires 0 <= i < |buf| => if at <= i < at + |out| then Put(buf[i], out[i - at], mix) else buf[i])
  }

  lemma StoredMore(buf: seq<Frame>, at: nat, out: seq<Frame>, f: Frame, mix: bool)
    requires at + |out| < |buf|
    ensures Stored(buf, at, out + [f], mix) == Stored(buf, at, out,
            mix)[at + |out| := Put(Stored(buf, at, out, mix)[at + |out|], f, mix)]
  {
  }

  class RateConverter {
    var opos: nat
    var ipos: nat
    var ilast: Frame
    const inc: nat

    function State(): Rate
      reads this
    {
      Rate(opos, inc, ipos, ilast)
    }

    predicate Valid()
      reads this
    {
      State().Valid() && Fits(State())
    }

    /** `st_rate_start` */
    constructor (inrate: nat, outrate: nat)
      requires 0 < inrate <= INT_MAX && 0 < outrate <= INT_MAX
      ensures Valid() && State() == Start(inrate, outrate)
    {
      StartFits(inrate, outrate);
      opos, ipos, ilast, inc := 0, 0, Frame(0, 0), inrate * ONE / outrate;
    }

    /** `st_rate_flow` and, with `mix`, `st_rate_flow_mix`: up to `isamp` frames from `ibuf` at `iat`, up to `osamp` to
        `obuf` at `oat` */
    method Run(ibuf: array<Frame>, iat: nat, isamp: nat, obuf: array<Frame>, oat: nat, osamp: nat, mix: bool)
        returns (taken: nat, made: nat)
      requires Valid() && iat + isamp <= ibuf.Length && oat + osamp <= obuf.Length && ibuf != obuf
      modifies this, obuf
      ensures Valid()
      ensures var f := RateFlow(old(State()), ibuf[iat..iat + isamp], osamp);
              && State() == f.rate && taken == f.taken && made == |f.out| && made <= osamp
              && obuf[..] == Stored(old(obuf[..]), oat, f.out, mix)
    {
      if inc == ONE {
        taken := PassThrough(ibuf, iat, isamp, obuf, oat, osamp, mix);
        made := taken;
      } else if isamp == 0 {
        taken, made := 0, 0;
        assert obuf[..] == Stored(obuf[..], oat, [], mix);
      } else {
        taken, made := Resample(ibuf, iat, isamp, obuf, oat, osamp, mix);
      }
    }

    method PassThrough(ibuf: array<Frame>, iat: nat, isamp: nat, obuf: array<Frame>, oat: nat, osamp: nat, mix: bool)
        returns (n: nat)
      requires iat + isamp <= ibuf.Length && oat + osamp <= obuf.Length && ibuf != obuf
      modifies obuf
      ensures n == if isamp > osamp then osamp else isamp
      ensures obuf[..] == Stored(old(obuf[..]), oat, ibuf[iat..iat + isamp][..n], mix)
    {
      ghost var input, before := ibuf[iat..iat + isamp], obuf[..];
      n := if isamp > osamp then osamp else isamp;
      var i := 0;
      while i < n
        invariant 0 <= i <= n && obuf[..] == Stored(before, oat, input[..i], mix)
      {
        StoredMore(before, oat, input[..i], input[i], mix);
        assert input[..i + 1] == input[..i] + [input[i]];
        obuf[oat + i] := Put(obuf[oat + i], ibuf[iat + i], mix);
        i := i + 1;
      }
    }

    method Resample(ibuf: array<Frame>, iat: nat, isamp: nat, obuf: array<Frame>, oat: nat, osamp: nat, mix: bool)
        returns (taken: nat, made: nat)
      requires Valid() && 0 < isamp && iat + isamp <= ibuf.Length && oat + osamp <= obuf.Length && ibuf != obuf
      modifies this, obuf
      ensures Valid()
      ensures var f := Flow(old(State()), ibuf[iat..iat + isamp], osamp);
              && State() == f.rate && taken == f.taken && made == |f.out| && made <= osamp
              && obuf[..] == Stored(old(obuf[..]), oat, f.out, mix)
    {
      var s;
      s, taken, made := ResampleLoop(State(), ibuf, iat, isamp, obuf, oat, osamp, mix);
      opos, ipos, ilast := s.opos, s.ipos, s.ilast;
    }
  }

  /** The loop on a copy of the state */
  method ResampleLoop(s0: Rate, ibuf: array<Frame>, iat: nat, isamp: nat, obuf: array<Frame>, oat: nat, osamp: nat,
      mix: bool)
    returns (s: Rate, taken: nat, made: nat)
    requires s0.Valid() && Fits(s0) && 0 < isamp && iat + isamp <= ibuf.Length && oat + osamp <= obuf.Length
             && ibuf != obuf
    modifies obuf
    ensures s.Valid() && Fits(s) && s.inc == s0.inc
    ensures var f := Flow(s0, ibuf[iat..iat + isamp], osamp);
            && s == f.rate && taken == f.taken && made == |f.out| && made <= osamp
            && obuf[..] == Stored(old(obuf[..]), oat, f.out, mix)
  {
    ghost var (input, before) := (ibuf[iat..iat + isamp], obuf[..]);
    ghost var out: seq<Frame> := [];
    s, taken, made := s0, 0, 0;
    assert input[0..] == input && obuf[..] == Stored(before, oat, out, mix);
    while true
      invariant 0 <= taken < isamp && |out| == made <= osamp && s.Valid() && Fits(s) && s.inc == s0.inc
      invariant obuf[..] == Stored(before, oat, out, mix)
      invariant Flow(s0, input, osamp) == Joined(taken, out, Flow(s, input[taken..], osamp - made))
      decreases isamp - taken + osamp - made
    {
      s, taken := TakeInput(ibuf, iat, isamp, s, taken, out, osamp - made);
      if taken == isamp || made >= osamp {
        break;
      }
      s, out := MakeOutput(input, s, taken, ibuf[iat + taken], obuf, oat, made, mix, before, out, osamp - made);
      made := made + 1;
    }
    FlowStops(s, input[taken..], osamp - made, taken, out);
  }

  /** The inner loop: takes frames until the next output position is reached or none is left. */
  method TakeInput(ibuf: array<Frame>, iat: nat, isamp: nat, s: Rate, taken: nat, ghost out: seq<Frame>,
      ghost room: nat)
    returns (s': Rate, taken': nat)
    requires iat + isamp <= ibuf.Length && taken < isamp && s.Valid() && Fits(s)
    ensures taken <= taken' <= isamp && s'.Valid() && Fits(s') && s'.inc == s.inc
            && (taken' < isamp ==> s'.ipos > s'.opos / ONE)
    ensures Joined(taken, out, Flow(s, ibuf[iat..iat + isamp][taken..], room))
            == Joined(taken', out, Flow(s', ibuf[iat..iat + isamp][taken'..], room))
  {
    s', taken' := s, taken;
    ghost var input := ibuf[iat..iat + isamp];
    while taken' < isamp && s'.ipos <= s'.opos / ONE
      invariant taken <= taken' <= isamp && s'.Valid() && Fits(s') && s'.inc == s.inc
      invariant Joined(taken, out, Flow(s, input[taken..], room))
                == Joined(taken', out, Flow(s', input[taken'..], room))
    {
      FlowTakes(s', input, taken', out, room);
      s' := s'.(ipos := s'.ipos + 1, ilast := ibuf[iat + taken']);
      taken' := taken' + 1;
    }
  }

  /** One output frame between the last frame taken and the one after it. */
  method Emit(s: Rate, current: Frame) returns (s': Rate, f: Frame)
    requires s.Valid() && Fits(s) && s.ipos > s.opos / ONE
    ensures s'.Valid() && Fits(s') && s'.inc == s.inc
    ensures var t := Rebased(s); s' == t.(opos := t.opos + t.inc) && f == Interpolate(s.ilast, current, t.opos % ONE)
  {
    var t := s;
    if t.ipos >= 0x10001 {
      t := t.(ipos := 1, opos := t.opos % ONE);
    }
    f := Interpolate(t.ilast, current, t.opos % ONE);
    s' := t.(opos := t.opos + t.inc);
  }

  /** One round of the outer loop. */
  method MakeOutput(ghost input: seq<Frame>, s: Rate, ghost taken: nat, current: Frame, obuf: array<Frame>, oat: nat,
      made: nat, mix: bool,
                    ghost before: seq<Frame>, ghost out: seq<Frame>, ghost room: nat)
    returns (s': Rate, ghost out': seq<Frame>)
    requires s.Valid() && Fits(s) && s.ipos > s.opos / ONE && taken < |input| && current == input[taken] && room > 0
    requires oat + made < obuf.Length && |before| == obuf.Length && |out| == made
             && obuf[..] == Stored(before, oat, out, mix)
    modifies obuf
    ensures s'.Valid() && Fits(s') && s'.inc == s.inc && |out'| == made + 1
            && obuf[..] == Stored(before, oat, out', mix)
    ensures Joined(taken, out, Flow(s, input[taken..], room)) == Joined(taken, out', Flow(s', input[taken..], room - 1))
  {
    FlowMakes(s, input, taken, out, room);
    var f;
    s', f := Emit(s, current);
    Store(obuf, oat, made, f, mix, before, out);
    out' := out + [f];
  }

  method Store(obuf: array<Frame>, oat: nat, made: nat, f: Frame, mix: bool, ghost before: seq<Frame>,
      ghost out: seq<Frame>)
    requires oat + made < obuf.Length && |before| == obuf.Length && |out| == made
             && obuf[..] == Stored(before, oat, out, mix)
    modifies obuf
    ensures obuf[..] == Stored(before, oat, out + [f], mix)
  {
    StoredMore(before, oat, out, f, mix);
    obuf[oat + made] := Put(obuf[oat + made], f, mix);
  }

  lemma FlowStops(s: Rate, rest: seq<Frame>, room: nat, taken: nat, out: seq<Frame>)
    requires rest == [] || (s.ipos > s.opos / ONE && room == 0)
    ensures Joined(taken, out, Flow(s, rest, room)) == Flowed(s, taken, out)
  {
    assert out + [] == out;
  }

  lemma FlowTakes(s: Rate, input: seq<Frame>, taken: nat, out: seq<Frame>, room: nat)
    requires taken < |input| && s.ipos <= s.opos / ONE
    ensures Joined(taken, out, Flow(s, input[taken..], room))
            == Joined(taken + 1, out, Flow(s.(ipos := s.ipos + 1, ilast := input[taken]), input[taken + 1..], room))
  {
    assert input[taken..][1..] == input[taken + 1..];
  }

  lemma FlowMakes(s: Rate, input: seq<Frame>, taken: nat, out: seq<Frame>, room: nat)
    requires taken < |input| && s.ipos > s.opos / ONE && room > 0
    ensures var t := Rebased(s);
            Joined(taken, out, Flow(s, input[taken..], room))
            == Joined(taken, out + [Interpolate(s.ilast, input[taken], t.opos % ONE)],
                Flow(t.(opos := t.opos + t.inc), input[taken..], room - 1))
  {
    var t := Rebased(s);
    var f := Flow(t.(opos := t.opos + t.inc), input[taken..], room - 1);
    var x := Interpolate(s.ilast, input[taken], t.opos % ONE);
    assert out + ([x] + f.out) == (out + [x]) + f.out;
  }

  lemma StartFits(inrate: nat, outrate: nat)
    requires 0 < inrate <= INT_MAX && 0 < outrate <= INT_MAX
    ensures Start(inrate, outrate).Valid() && Fits(Start(inrate, outrate))
  {
    DivLe(outrate, inrate * ONE, outrate);
    QuotientIs(outrate, 1, outrate);
    Quotient(inrate * ONE, outrate);
    if inrate * ONE / outrate > inrate * ONE {
      MulLe(1, outrate, inrate * ONE / outrate);
    }
  }
}
