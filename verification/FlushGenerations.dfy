/** `bdrv_co_flush` and the generation counters: any number of flushes and finishing writes of one node, interleaved
    wherever a coroutine waits or a driver call is under way. */
module FlushGenerations {
  type Flush = nat

  /** A write is named by the value that it gave `write_gen` when it finished. `toOs`, `toDisk` and `below` are the
      writes that have left the driver's cache, that are on this node's disk, and that the children have made
      durable. */
  datatype Node = Node(writeGen: nat, flushedGen: nat, active: bool, toOs: set<nat>, toDisk: set<nat>, below: set<nat>,
                       flushes: map<Flush, Stage>)
  {
    function At(f: Flush, p: Stage): Node {
      this.(flushes := flushes[f := p])
    }

    predicate Durable(w: nat) {
      w in toDisk && w in below
    }
  }

  /** Where a flush stands; `gen` is the `current_gen` that it read first. A driver call covers the writes in `seen`. */
  datatype Stage =
    | Waiting(gen: nat)
    | Starting(gen: nat)
    | WholeCall(gen: nat, seen: set<nat>) // the driver's own bdrv_co_flush
    | OsCall(gen: nat, seen: set<nat>)
    | Testing(gen: nat)
    | DiskCall(gen: nat, seen: set<nat>)
    | Children(gen: nat)
    | ChildCall(gen: nat, seen: set<nat>)
    | Ending(gen: nat, ok: bool)
    | Returned(gen: nat, ok: bool)
  {
    predicate Active() {
      !Waiting? && !Returned?
    }
  }

  /** The writes that had finished when `write_gen` was `n`. */
  function Finished(n: nat): (r: set<nat>)
    ensures forall w :: w in r <==> 1 <= w <= n
  {
    if n == 0 then {} else Finished(n - 1) + {n}
  }

  datatype Move =
    | FinishWrite
    | Call(f: Flush)               // reads write_gen
    | Enter(f: Flush)              // found no active flush
    | Begin(f: Flush, whole: bool) // the driver has, or has not, a bdrv_co_flush of its own
    | Done(f: Flush, ok: bool)     // a driver call, or the flush of all children, returns
    | Test(f: Flush)               // flushed_gen == current_gen?
    | BeginChildren(f: Flush)
    | End(f: Flush)

  ghost predicate Enabled(s: Node, m: Move) {
    match m
    case FinishWrite => true
    case Call(f) => f !in s.flushes
    case Enter(f) => f in s.flushes && s.flushes[f].Waiting? && !s.active
    case Begin(f, _) => f in s.flushes && s.flushes[f].Starting?
    case Done(f, _) =>
      f in s.flushes && (var p := s.flushes[f]; p.WholeCall? || p.OsCall? || p.DiskCall? || p.ChildCall?)
    case Test(f) => f in s.flushes && s.flushes[f].Testing?
    case BeginChildren(f) => f in s.flushes && s.flushes[f].Children?
    case End(f) => f in s.flushes && s.flushes[f].Ending?
  }

  /** A driver call returns: what it covers has got one level further, or the flush has failed. */
  function AfterCall(s: Node, f: Flush, ok: bool): Node
    requires Enabled(s, Done(f, ok))
  {
    var p := s.flushes[f];
    if !ok then s.At(f, Ending(p.gen, false))
    else
      match p
      case WholeCall(gen, seen) => s.At(f, Ending(gen, true)).(toDisk := s.toDisk + seen, below := s.below + seen)
      case OsCall(gen, seen) => s.At(f, Testing(gen)).(toOs := s.toOs + seen)
      case DiskCall(gen, seen) => s.At(f, Children(gen)).(toDisk := s.toDisk + seen)
      case ChildCall(gen, seen) => s.At(f, Ending(gen, true)).(below := s.below + seen)
  }

  function Apply(s: Node, m: Move): Node
    requires Enabled(s, m)
  {
    match m
    case FinishWrite => s.(writeGen := s.writeGen + 1)
    case Call(f) => s.At(f, Waiting(s.writeGen))
    case Enter(f) => s.At(f, Starting(s.flushes[f].gen)).(active := true)
    case Begin(f, whole) =>
      var (gen, seen) := (s.flushes[f].gen, Finished(s.writeGen));
      s.At(f, if whole then WholeCall(gen, seen) else OsCall(gen, seen))
    case Done(f, ok) => AfterCall(s, f, ok)
    case Test(f) =>
      var gen := s.flushes[f].gen;
      s.At(f, if s.flushedGen == gen then Children(gen) else DiskCall(gen, s.toOs))
    case BeginChildren(f) => s.At(f, ChildCall(s.flushes[f].gen, Finished(s.writeGen)))
    case End(f) =>
      var p := s.flushes[f];
      s.At(f, Returned(p.gen, p.ok)).(flushedGen := if p.ok then p.gen else s.flushedGen, active := false)
  }

  ghost predicate Legal(s: Node, moves: seq<Move>)
    decreases |moves|
  {
    moves == [] || (Enabled(s, moves[0]) && Legal(Apply(s, moves[0]), moves[1..]))
  }

  function After(s: Node, moves: seq<Move>): Node
    requires Legal(s, moves)
    decreases |moves|
  {
    if moves == [] then s else After(Apply(s, moves[0]), moves[1..])
  }

  const FRESH := Node(0, 0, false, {}, {}, {}, map[])

  /** Everything up to generation `gen` is in `s`. */
  ghost predicate UpTo(gen: nat, s: set<nat>) {
    Finished(gen) <= s
  }

  ghost predicate FlushOk(s: Node, p: Stage) {
    && p.gen <= s.writeGen
    && match p
       case WholeCall(gen, seen) => UpTo(gen, seen)
       case OsCall(gen, seen) => UpTo(gen, seen)
       case Testing(gen) => UpTo(gen, s.toOs)
       case DiskCall(gen, seen) => UpTo(gen, seen)
       case Children(gen) => UpTo(gen, s.toDisk)
       case ChildCall(gen, seen) => UpTo(gen, s.toDisk) && UpTo(gen, seen)
       case Ending(gen, ok) => ok ==> UpTo(gen, s.toDisk) && UpTo(gen, s.below)
       case Returned(gen, ok) => ok ==> UpTo(gen, s.toDisk) && UpTo(gen, s.below)
       case _ => true
  }

  ghost predicate Inv(s: Node) {
    && UpTo(s.flushedGen, s.toDisk) && UpTo(s.flushedGen, s.below)
    && (forall f :: f in s.flushes ==> FlushOk(s, s.flushes[f]))
    && (forall f, g :: f in s.flushes && g in s.flushes && s.flushes[f].Active() && s.flushes[g].Active() ==> f == g)
    && (s.active <==> exists f :: f in s.flushes && s.flushes[f].Active())
  }

  lemma FinishedMonotone(a: nat, b: nat)
    requires a <= b
    ensures Finished(a) <= Finished(b)
  {
  }

  /** What one flush knows stays true when the sets grow. */
  lemma FlushOkKept(s: Node, s': Node, p: Stage)
    requires FlushOk(s, p) && s.writeGen <= s'.writeGen && s.toOs <= s'.toOs && s.toDisk <= s'.toDisk
             && s.below <= s'.below
    ensures FlushOk(s', p)
  {
  }

  lemma ApplyGrows(s: Node, m: Move)
    requires Enabled(s, m)
    ensures var s' := Apply(s, m);
            s.writeGen <= s'.writeGen && s.toOs <= s'.toOs && s.toDisk <= s'.toDisk && s.below <= s'.below
  {
  }

  /** The flag `active_flush_req` stands for the flush that is at work. */
  lemma ActiveKept(s: Node, m: Move)
    requires Inv(s) && Enabled(s, m)
    ensures var s' := Apply(s, m); s'.active <==> exists f :: f in s'.flushes && s'.flushes[f].Active()
  {
    var s' := Apply(s, m);
    if s.active && s'.active {
      var f :| f in s.flushes && s.flushes[f].Active();
      assert f in s'.flushes && s'.flushes[f].Active();
    } else if s'.active {
      assert s'.flushes[m.f].Active();
    }
  }

  lemma ApplyKeeps(s: Node, m: Move)
    requires Inv(s) && Enabled(s, m)
    ensures Inv(Apply(s, m))
  {
    ApplyGrows(s, m);
    ActiveKept(s, m);
    var s' := Apply(s, m);
    forall f | f in s'.flushes ensures FlushOk(s', s'.flushes[f]) {
      if f in s.flushes && s'.flushes[f] == s.flushes[f] {
        FlushOkKept(s, s', s.flushes[f]);
      } else {
        FinishedMonotone(s'.flushes[f].gen, s.writeGen);
      }
    }
  }

  lemma {:induction false} LegalKeeps(s: Node, moves: seq<Move>)
    requires Inv(s) && Legal(s, moves)
    ensures Inv(After(s, moves))
    decreases |moves|
  {
    if moves != [] {
      ApplyKeeps(s, moves[0]);
      LegalKeeps(Apply(s, moves[0]), moves[1..]);
    }
  }

  /** In every run, at every moment, all writes up to `flushed_gen` are durable and one flush at most is at work. */
  lemma FlushedIsDurable(moves: seq<Move>, w: nat)
    requires Legal(FRESH, moves) && 1 <= w <= After(FRESH, moves).flushedGen
    ensures After(FRESH, moves).Durable(w)
  {
    LegalKeeps(FRESH, moves);
    assert w in Finished(After(FRESH, moves).flushedGen);
  }

  lemma {:induction false} GenKept(s: Node, moves: seq<Move>, f: Flush)
    requires Legal(s, moves) && f in s.flushes
    ensures f in After(s, moves).flushes && After(s, moves).flushes[f].gen == s.flushes[f].gen
    decreases |moves|
  {
    if moves != [] {
      GenKept(Apply(s, moves[0]), moves[1..], f);
    }
  }

  /** A flush that returns 0 has made durable every write that had finished when it was called, whatever else
      was flushed or written meanwhile, and whether or not it went to the disk itself. */
  lemma FlushDurable(s: Node, f: Flush, moves: seq<Move>, w: nat)
    requires Inv(s) && f !in s.flushes && Legal(Apply(s, Call(f)), moves) && 1 <= w <= s.writeGen
    ensures var t := After(Apply(s, Call(f)), moves);
            f in t.flushes && (t.flushes[f].Returned? && t.flushes[f].ok ==> t.Durable(w))
  {
    var s1 := Apply(s, Call(f));
    ApplyKeeps(s, Call(f));
    LegalKeeps(s1, moves);
    GenKept(s1, moves, f);
    var t := After(s1, moves);
    assert FlushOk(t, t.flushes[f]);
    assert w in Finished(t.flushes[f].gen);
  }

  // ---- flushes return ----

  /** A call of flush `f` that fails */
  predicate Fails(m: Move, f: Flush) {
    m == Done(f, false)
  }

  predicate Failed(p: Stage) {
    (p.Ending? || p.Returned?) && !p.ok
  }

  /** How many moves a flush has still to make at most */
  function Rest(p: Stage): nat {
    match p
    case Waiting(_) => 9
    case Starting(_) => 8
    case WholeCall(_, _) => 2
    case OsCall(_, _) => 7
    case Testing(_) => 6
    case DiskCall(_, _) => 5
    case Children(_) => 4
    case ChildCall(_, _) => 3
    case Ending(_, _) => 1
    case Returned(_, _) => 0
  }

  predicate Moves(m: Move, f: Flush) {
    !m.FinishWrite? && m.f == f
  }

  function MovesOf(moves: seq<Move>, f: Flush): nat {
    if moves == [] then 0 else MovesOf(moves[1..], f) + if Moves(moves[0], f) then 1 else 0
  }

  lemma MoveAdvances(s: Node, m: Move, f: Flush)
    requires Enabled(s, m) && f in s.flushes
    ensures f in Apply(s, m).flushes
    ensures if Moves(m, f) then Rest(Apply(s, m).flushes[f]) < Rest(s.flushes[f])
            else Apply(s, m).flushes[f] == s.flushes[f]
    ensures Failed(Apply(s, m).flushes[f]) ==> Failed(s.flushes[f]) || Fails(m, f)
  {
  }

  /** A flush fails only if one of its calls has failed, and returns after nine moves at most, whatever else happens. */
  lemma {:induction false} FlushReturns(s: Node, f: Flush, moves: seq<Move>)
    requires Legal(s, moves) && f in s.flushes
    ensures f in After(s, moves).flushes
    ensures Rest(After(s, moves).flushes[f]) + MovesOf(moves, f) <= Rest(s.flushes[f])
    ensures Failed(After(s, moves).flushes[f]) ==> Failed(s.flushes[f]) || exists m :: m in moves && Fails(m, f)
    decreases |moves|
  {
    if moves != [] {
      MoveAdvances(s, moves[0], f);
      FlushReturns(Apply(s, moves[0]), f, moves[1..]);
      assert moves[0] in moves;
    }
  }

  /** A flush none of whose calls fails returns 0, once it returns. */
  lemma FlushSucceeds(s: Node, f: Flush, moves: seq<Move>)
    requires f !in s.flushes && Legal(Apply(s, Call(f)), moves) && forall m :: m in moves ==> !Fails(m, f)
    ensures var t := After(Apply(s, Call(f)), moves); f in t.flushes && (t.flushes[f].Returned? ==> t.flushes[f].ok)
  {
    FlushReturns(Apply(s, Call(f)), f, moves);
  }

  /** A call that fails makes its flush fail. */
  lemma FailureReported(s: Node, f: Flush, moves: seq<Move>)
    requires Enabled(s, Done(f, false)) && Legal(Apply(s, Done(f, false)), moves)
    ensures var t := After(Apply(s, Done(f, false)), moves); f in t.flushes && Failed(t.flushes[f])
  {
    StaysFailed(Apply(s, Done(f, false)), f, moves);
  }

  lemma {:induction false} StaysFailed(s: Node, f: Flush, moves: seq<Move>)
    requires Legal(s, moves) && f in s.flushes && Failed(s.flushes[f])
    ensures f in After(s, moves).flushes && Failed(After(s, moves).flushes[f])
    decreases |moves|
  {
    if moves != [] {
      StaysFailed(Apply(s, moves[0]), f, moves[1..]);
    }
  }

  /** After a flush that returns 0, another one of the same generation does not go to the disk again. */
  lemma CleanSkips(s: Node, f: Flush, g: Flush)
    requires Enabled(s, End(f)) && s.flushes[f].ok && g in s.flushes && s.flushes[g] == Testing(s.flushes[f].gen)
    ensures var t := Apply(s, End(f));
            && t.flushedGen == s.flushes[f].gen && Enabled(t, Test(g))
            && Apply(t, Test(g)).flushes[g] == Children(s.flushes[f].gen)
  {
  }

  /** The move that flush `f` makes next, if its calls succeed */
  function NextOf(s: Node, f: Flush): Move
    requires f in s.flushes
  {
    match s.flushes[f]
    case Waiting(_) => Enter(f)
    case Starting(_) => Begin(f, false)
    case Testing(_) => Test(f)
    case Children(_) => BeginChildren(f)
    case Ending(_, _) => End(f)
    case _ => Done(f, true)
  }

  /** No flush waits for ever for others that wait too: as long as one has not returned, some flush can move. */
  lemma SomebodyFlushes(s: Node, f: Flush) returns (g: Flush)
    requires Inv(s) && f in s.flushes && !s.flushes[f].Returned?
    ensures g in s.flushes && !s.flushes[g].Returned? && Enabled(s, NextOf(s, g)) && Moves(NextOf(s, g), g)
  {
    g := f;
    if s.active {
      g :| g in s.flushes && s.flushes[g].Active();
    }
  }

  /** `flushed_gen` may go back: a flush that waited long ends after a younger one. Nothing durable is lost by it. */
  lemma GoesBack(s: Node, f: Flush)
    requires Inv(s) && f in s.flushes && s.flushes[f] == Ending(s.flushes[f].gen, true)
             && s.flushes[f].gen < s.flushedGen
    ensures var t := Apply(s, End(f));
            t.flushedGen < s.flushedGen && Inv(t) && forall w :: s.Durable(w) ==> t.Durable(w)
  {
    ApplyKeeps(s, End(f));
  }

  // ---- a run in which it does ----

  /** A run goes on with one more move. */
  lemma {:induction false} Goes(s: Node, moves: seq<Move>, m: Move)
    requires Legal(s, moves) && Enabled(After(s, moves), m)
    ensures Legal(s, moves + [m]) && After(s, moves + [m]) == Apply(After(s, moves), m)
    decreases |moves|
  {
    if moves == [] {
      assert [] + [m] == [m] && [m][1..] == [];
      assert Legal(Apply(s, m), []);
    } else {
      Goes(Apply(s, moves[0]), moves[1..], m);
      assert (moves + [m])[1..] == moves[1..] + [m];
    }
  }

  /** The generations that a run has come to, and its flushes */
  ghost predicate Reached(moves: seq<Move>, writeGen: nat, flushedGen: nat, active: bool, flushes: map<Flush, Stage>) {
    && Legal(FRESH, moves)
    && var s := After(FRESH, moves);
       s.writeGen == writeGen && s.flushedGen == flushedGen && s.active == active && s.flushes == flushes
  }

  /** Flush `f` finds no other at work and enters. */
  lemma Enters(moves: seq<Move>, w: nat, g: nat, flushes: map<Flush, Stage>, f: Flush, gen: nat)
      returns (moves': seq<Move>)
    requires Reached(moves, w, g, false, flushes) && f in flushes && flushes[f] == Waiting(gen)
    ensures Reached(moves', w, g, true, flushes[f := Starting(gen)])
  {
    Goes(FRESH, moves, Enter(f));
    moves' := moves + [Enter(f)];
  }

  /** Flush `f` goes through the driver's own flush, up to its end. */
  lemma Flushes(moves: seq<Move>, w: nat, g: nat, flushes: map<Flush, Stage>, f: Flush, gen: nat)
      returns (moves': seq<Move>)
    requires Reached(moves, w, g, true, flushes) && f in flushes && flushes[f] == Starting(gen)
    ensures Reached(moves', w, g, true, flushes[f := Ending(gen, true)])
  {
    Goes(FRESH, moves, Begin(f, true));
    moves' := moves + [Begin(f, true)];
    Goes(FRESH, moves', Done(f, true));
    moves' := moves' + [Done(f, true)];
    assert After(FRESH, moves').flushes == flushes[f := Ending(gen, true)];
  }

  lemma Ends(moves: seq<Move>, w: nat, g: nat, flushes: map<Flush, Stage>, f: Flush, gen: nat)
      returns (moves': seq<Move>)
    requires Reached(moves, w, g, true, flushes) && f in flushes && flushes[f] == Ending(gen, true)
    ensures Reached(moves', w, gen, false, flushes[f := Returned(gen, true)])
  {
    Goes(FRESH, moves, End(f));
    moves' := moves + [End(f)];
  }

  lemma Calls(moves: seq<Move>, w: nat, g: nat, active: bool, flushes: map<Flush, Stage>, f: Flush)
      returns (moves': seq<Move>)
    requires Reached(moves, w, g, active, flushes) && f !in flushes
    ensures Reached(moves', w, g, active, flushes[f := Waiting(w)])
  {
    Goes(FRESH, moves, Call(f));
    moves' := moves + [Call(f)];
  }

  /** Flush 0 waits for flush 2 while a write finishes. When 2 has ended, flush 1 is called and enters before 0 gets to
      run. */
  lemma Overtaken() returns (moves: seq<Move>, flushes: map<Flush, Stage>)
    ensures Reached(moves, 1, 1, false, flushes) && 0 in flushes && flushes[0] == Waiting(0)
  {
    moves := [];
    assert Legal(FRESH, []);
    moves := Calls(moves, 0, 0, false, map[], 2);
    moves := Enters(moves, 0, 0, map[2 := Waiting(0)], 2, 0);
    flushes := map[2 := Waiting(0)][2 := Starting(0)];
    moves := Calls(moves, 0, 0, true, flushes, 0);
    flushes := flushes[0 := Waiting(0)];
    Goes(FRESH, moves, FinishWrite);
    moves := moves + [FinishWrite];
    moves := Flushes(moves, 1, 0, flushes, 2, 0);
    moves := Ends(moves, 1, 0, flushes[2 := Ending(0, true)], 2, 0);
    flushes := flushes[2 := Ending(0, true)][2 := Returned(0, true)];
    moves := Calls(moves, 1, 0, false, flushes, 1);
    moves, flushes := FlushesAll(moves, 1, 0, flushes[1 := Waiting(1)], 1, 1);
  }

  lemma FlushesAll(moves: seq<Move>, w: nat, g: nat, flushes: map<Flush, Stage>, f: Flush, gen: nat)
    returns (moves': seq<Move>, flushes': map<Flush, Stage>)
    requires Reached(moves, w, g, false, flushes) && f in flushes && flushes[f] == Waiting(gen)
    ensures Reached(moves', w, gen, false, flushes') && flushes' == flushes[f := Returned(gen, true)]
  {
    moves' := Enters(moves, w, g, flushes, f, gen);
    moves' := Flushes(moves', w, g, flushes[f := Starting(gen)], f, gen);
    moves' := Ends(moves', w, g, flushes[f := Starting(gen)][f := Ending(gen, true)], f, gen);
    flushes' := flushes[f := Returned(gen, true)];
    assert flushes[f := Starting(gen)][f := Ending(gen, true)][f := Returned(gen, true)] == flushes';
  }

  /** Then flush 0 ends last, and `flushed_gen` goes from 1 back to 0. */
  lemma GoesBackExample() returns (moves: seq<Move>)
    ensures Legal(FRESH, moves) && Enabled(After(FRESH, moves), End(0)) && After(FRESH, moves).flushedGen == 1
    ensures Legal(FRESH, moves + [End(0)]) && After(FRESH, moves + [End(0)]).flushedGen == 0
  {
    var flushes;
    moves, flushes := Overtaken();
    moves := Enters(moves, 1, 1, flushes, 0, 0);
    moves := Flushes(moves, 1, 1, flushes[0 := Starting(0)], 0, 0);
    Goes(FRESH, moves, End(0));
  }
}
