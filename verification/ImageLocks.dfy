/** Byte locks on an image file: any number of processes prepare, commit and abort permission changes,
    interleaved lock call by lock call. */
module ImageLocks {
  import opened Permissions

  type Process = nat

  /** The lock bytes at RAW_LOCK_PERM_BASE and at RAW_LOCK_SHARED_BASE: one says that its owner uses a permission,
      the other that its owner does not share it. */
  datatype Byte = Uses(p: Perm) | Denies(p: Perm) {
    function Opposite(): Byte {
      if Uses? then Denies(p) else Uses(p)
    }
  }

  function Bytes(e: EdgePerm): (r: set<Byte>)
    ensures forall x :: (Uses(x) in r <==> x in e.perm) && (Denies(x) in r <==> x !in e.shared)
  {
    (set x: Perm | x in e.perm :: Uses(x)) + (set x: Perm | x !in e.shared :: Denies(x))
  }

  function Opposites(s: set<Byte>): (r: set<Byte>)
    ensures forall b: Byte :: b in r <==> b.Opposite() in s
  {
    assert forall b: Byte :: b.Opposite().Opposite() == b;
    set b | b in s :: b.Opposite()
  }

  /** Which of its uses `raw_apply_lock_bytes` has. */
  datatype Goal = ForPrepare(want: EdgePerm) | ForCommit(want: EdgePerm) | ForAbort

  datatype Stage =
    | Idle
    | Applying(goal: Goal, todo: set<Byte>)
    | Checking(want: EdgePerm, todo: set<Byte>)
    | Prepared(want: EdgePerm)

  /** `held` is `perm` and `shared_perm`, `locked` is `locked_perm` and `locked_shared_perm`. */
  datatype Image = Image(held: EdgePerm, locked: set<Byte>, stage: Stage) {
    function Target(goal: Goal): set<Byte> {
      match goal
      case ForPrepare(want) => Bytes(held) + Bytes(want)
      case ForCommit(want) => Bytes(want)
      case ForAbort => Bytes(held)
    }

    /** Enters the loops of `raw_apply_lock_bytes`; only a prepare does not unlock. */
    function Apply(goal: Goal): Image {
      this.(stage := Applying(goal, Target(goal) - locked + if goal.ForPrepare? then {} else locked - Target(goal)))
    }

    /** The loops are over, or a call failed. */
    function Applied(ok: bool): Image
      requires stage.Applying?
    {
      match stage.goal
      case ForPrepare(want) => if ok then this.(stage := Checking(want, Opposites(Bytes(want)))) else Apply(ForAbort)
      case ForCommit(want) => this.(held := want, stage := Idle)
      case ForAbort => this.(stage := Idle)
    }

    /** The permissions that count: from the first unlock of a commit on, the new ones. */
    function Effective(): EdgePerm {
      if stage.Applying? && stage.goal.ForCommit? then stage.goal.want else held
    }

    predicate Skips(want: EdgePerm) {
      held.perm + want.perm == held.perm && held.shared * want.shared == held.shared
    }
  }

  type World = map<Process, Image>

  datatype Move =
    | Prepare(p: Process, want: EdgePerm)
    | LockCall(p: Process, byte: Byte, ok: bool)
    | EndApply(p: Process)
    | TestCall(p: Process, byte: Byte, ok: bool)
    | EndCheck(p: Process)
    | Commit(p: Process)
    | Abort(p: Process)

  /** An exclusive lock on `b` could be had by `p`. */
  ghost predicate Free(w: World, p: Process, b: Byte) {
    forall q :: q in w && q != p ==> b !in w[q].locked
  }

  ghost predicate Enabled(w: World, m: Move) {
    && m.p in w
    && var s := w[m.p].stage;
       match m
       case Prepare(_, want) => s.Idle? || s.Prepared?
       case LockCall(_, b, ok) => s.Applying? && b in s.todo
       case EndApply(_) => s.Applying? && s.todo == {}
       case TestCall(_, b, ok) => s.Checking? && b in s.todo && (ok ==> Free(w, m.p, b))
       case EndCheck(_) => s.Checking? && s.todo == {}
       case Commit(_) => s.Prepared?
       case Abort(_) => s.Prepared?
  }

  ghost function After1(w: World, m: Move): Image
    requires Enabled(w, m)
  {
    var i := w[m.p];
    match m
    case Prepare(_, want) => if i.Skips(want) then i.(stage := Prepared(want)) else i.Apply(ForPrepare(want))
    case LockCall(_, b, ok) =>
      if !ok then i.Applied(false)
      else i.(locked := if b in i.locked then i.locked - {b}
          else i.locked + {b}, stage := Applying(i.stage.goal, i.stage.todo - {b}))
    case EndApply(_) => i.Applied(true)
    case TestCall(_, b, ok) => if ok then i.(stage := Checking(i.stage.want, i.stage.todo - {b})) else i.Apply(ForAbort)
    case EndCheck(_) => i.(stage := Prepared(i.stage.want))
    case Commit(_) => i.Apply(ForCommit(i.stage.want))
    case Abort(_) => i.Apply(ForAbort)
  }

  ghost predicate Legal(w: World, moves: seq<Move>)
    decreases |moves|
  {
    moves == [] || (Enabled(w, moves[0]) && Legal(w[moves[0].p := After1(w, moves[0])], moves[1..]))
  }

  ghost function After(w: World, moves: seq<Move>): World
    requires Legal(w, moves)
    decreases |moves|
  {
    if moves == [] then w else After(w[moves[0].p := After1(w, moves[0])], moves[1..])
  }

  ghost predicate Opened(w: World) {
    forall p :: p in w ==> w[p] == Image(EdgePerm({}, ALL), {}, Idle)
  }

  /** The bytes that a process can rely on: those of its permissions, and of the wanted ones those whose opposites it
      has found free. */
  function Won(i: Image): set<Byte> {
    Bytes(i.Effective())
    + match i.stage
      case Checking(want, todo) => Bytes(want) - Opposites(todo)
      case Prepared(want) => Bytes(want)
      case _ => {}
  }

  ghost predicate ImageOk(i: Image) {
    && Won(i) <= i.locked
    && (i.stage.Checking? ==> Bytes(i.stage.want) <= i.locked && i.stage.todo <= Opposites(Bytes(i.stage.want)))
    && (i.stage.Applying? && i.stage.goal.ForPrepare? ==> i.Target(i.stage.goal) <= i.locked + i.stage.todo)
    && (i.stage.Applying? ==> i.stage.todo !! (i.locked * i.Target(i.stage.goal)))
  }

  ghost predicate PairOk(i: Image, j: Image) {
    forall b :: b in Won(i) ==> b.Opposite() !in Won(j)
  }

  ghost predicate Inv(w: World) {
    && (forall p :: p in w ==> ImageOk(w[p]))
    && (forall p, q :: p in w && q in w && p != q ==> PairOk(w[p], w[q]))
  }

  lemma MoveKeepsImage(w: World, m: Move)
    requires Enabled(w, m) && ImageOk(w[m.p])
    ensures ImageOk(After1(w, m))
  {
  }

  /** A move lets a process rely on one more byte at most, and only if nobody has locked the opposite one. */
  lemma MoveWins(w: World, m: Move, b: Byte)
    requires Enabled(w, m) && ImageOk(w[m.p]) && b in Won(After1(w, m)) && b !in Won(w[m.p])
    ensures Free(w, m.p, b.Opposite())
  {
  }

  lemma MoveKeeps(w: World, m: Move)
    requires Inv(w) && Enabled(w, m)
    ensures Inv(w[m.p := After1(w, m)])
  {
    var i := After1(w, m);
    MoveKeepsImage(w, m);
    forall q, b: Byte | q in w && q != m.p && b in Won(i) ensures b.Opposite() !in Won(w[q]) {
      assert PairOk(w[m.p], w[q]) && ImageOk(w[q]);
      if b !in Won(w[m.p]) {
        MoveWins(w, m, b);
      }
    }
    forall q, b: Byte | q in w && q != m.p && b in Won(w[q]) ensures b.Opposite() !in Won(i) {
      assert b.Opposite().Opposite() == b;
    }
  }

  lemma {:induction false} LegalKeeps(w: World, moves: seq<Move>)
    requires Inv(w) && Legal(w, moves)
    ensures Inv(After(w, moves))
    decreases |moves|
  {
    if moves != [] {
      MoveKeeps(w, moves[0]);
      LegalKeeps(w[moves[0].p := After1(w, moves[0])], moves[1..]);
    }
  }

  /** Whatever the processes do, and whichever lock calls fail, no process uses a permission that another one
      does not share, and the locked bytes cover the permissions. */
  lemma PermissionsExclusive(w: World, moves: seq<Move>, p: Process, q: Process)
    requires Opened(w) && Legal(w, moves) && p in After(w, moves) && q in After(w, moves)
    ensures Bytes(After(w, moves)[p].Effective()) <= After(w, moves)[p].locked
    ensures p != q ==> After(w, moves)[p].Effective().perm <= After(w, moves)[q].Effective().shared
  {
    AllPerms();
    LegalKeeps(w, moves);
    var (i, j) := (After(w, moves)[p], After(w, moves)[q]);
    assert ImageOk(i);
    if p != q {
      forall x | x in i.Effective().perm ensures x in j.Effective().shared {
        assert PairOk(i, j);
        assert Uses(x) in Won(i) && Uses(x).Opposite() == Denies(x);
      }
    }
  }

  /** Nothing is left to lock when a change is committed or taken back, so no failing call can uncover a permission. */
  lemma CommitOnlyUnlocks(i: Image)
    requires ImageOk(i) && i.stage.Prepared?
    ensures i.Apply(ForCommit(i.stage.want)).stage.todo == i.locked - Bytes(i.stage.want)
    ensures i.Apply(ForAbort).stage.todo == i.locked - Bytes(i.held)
  {
  }

  // ---- what calls lead to, and which locks remain ----

  /** A lock call takes a byte that is wanted, and gives back any other one. */
  lemma LockCallMeans(w: World, m: Move)
    requires m.LockCall? && m.ok && Enabled(w, m) && Tidy(w[m.p])
    ensures var (i, j) := (w[m.p], After1(w, m));
            && (m.byte in j.locked <==> m.byte in i.Target(i.stage.goal))
            && (m.byte in i.locked <==> m.byte !in j.locked)
            && j.locked - {m.byte} == i.locked - {m.byte} && j.held == i.held
  {
  }

  /** No call of process `p` fails, and it starts nothing new. */
  predicate Succeeds(m: Move, p: Process) {
    m.p == p ==>
      match m
      case LockCall(_, _, ok) => ok
      case TestCall(_, _, ok) => ok
      case EndApply(_) => true
      case EndCheck(_) => true
      case _ => false
  }

  /** How many calls a process has still to make, with the end of each loop counted as one */
  function Rest(i: Image): nat {
    match i.stage
    case Applying(ForPrepare(want), todo) => |todo| + |Opposites(Bytes(want))| + 2
    case Applying(_, todo) => |todo| + 1
    case Checking(_, todo) => |todo| + 1
    case _ => 0
  }

  /** The permissions and the stage that these calls lead to */
  function Goes(i: Image): (EdgePerm, Stage) {
    match i.stage
    case Applying(ForPrepare(want), _) => (i.held, Prepared(want))
    case Applying(ForCommit(want), _) => (want, Idle)
    case Applying(ForAbort, _) => (i.held, Idle)
    case Checking(want, _) => (i.held, Prepared(want))
    case _ => (i.held, i.stage)
  }

  lemma CallProgress(w: World, m: Move)
    requires Enabled(w, m) && Succeeds(m, m.p)
    ensures Rest(After1(w, m)) + 1 == Rest(w[m.p]) && Goes(After1(w, m)) == Goes(w[m.p])
  {
  }

  function CallsOf(moves: seq<Move>, p: Process): nat {
    if moves == [] then 0 else CallsOf(moves[1..], p) + if moves[0].p == p then 1 else 0
  }

  /** As long as no call of a process fails, each one brings it nearer to the end, whatever others do: a prepare ends
      prepared, a commit with the new permissions, an abort with the old ones. */
  lemma {:induction false} CallsLeadTo(w: World, moves: seq<Move>, p: Process)
    requires Legal(w, moves) && p in w && forall m :: m in moves ==> Succeeds(m, p)
    ensures p in After(w, moves)
    ensures var i := After(w, moves)[p];
            && Goes(i) == Goes(w[p]) && Rest(i) + CallsOf(moves, p) == Rest(w[p])
            && (Rest(i) == 0 ==> (i.held, i.stage) == Goes(w[p]))
    decreases |moves|
  {
    if moves != [] {
      if moves[0].p == p {
        CallProgress(w, moves[0]);
      }
      CallsLeadTo(w[moves[0].p := After1(w, moves[0])], moves[1..], p);
    }
  }

  /** A prepare that asks for nothing more needs no lock; any other one has to get all locks of the wanted permissions,
      and to find free the opposite of each. */
  lemma PrepareAsks(i: Image, want: EdgePerm)
    ensures i.Skips(want) <==> Bytes(want) <= Bytes(i.held)
    ensures i.Apply(ForPrepare(want)).stage.todo == Bytes(i.held) + Bytes(want) - i.locked
  {
    AllPerms();
    if Bytes(want) <= Bytes(i.held) {
      forall x ensures (x in want.perm ==> x in i.held.perm) && (x in i.held.shared ==> x in want.shared) {
        assert Uses(x) in Bytes(want) ==> Uses(x) in Bytes(i.held);
        assert Denies(x) in Bytes(want) ==> Denies(x) in Bytes(i.held);
      }
    }
  }

  /** Exactly the bytes that are still to be locked or unlocked are in the wrong state, and at rest none is. */
  ghost predicate Tidy(i: Image) {
    match i.stage
    case Idle => i.locked == Bytes(i.held)
    case Applying(ForPrepare(want), todo) => todo == i.Target(i.stage.goal) - i.locked
    case Applying(_, todo) =>
      todo == (i.Target(i.stage.goal) - i.locked) + (i.locked - i.Target(i.stage.goal))
    case _ => true
  }

  /** No call of a commit or an abort fails. */
  ghost predicate Unlocks(w: World, m: Move) {
    m.LockCall? && !m.ok && m.p in w && w[m.p].stage.Applying? ==> w[m.p].stage.goal.ForPrepare?
  }

  ghost predicate AllUnlock(w: World, moves: seq<Move>)
    requires Legal(w, moves)
    decreases |moves|
  {
    moves == [] || (Unlocks(w, moves[0]) && AllUnlock(w[moves[0].p := After1(w, moves[0])], moves[1..]))
  }

  lemma MoveTidy(w: World, m: Move)
    requires Enabled(w, m) && Unlocks(w, m) && Tidy(w[m.p])
    ensures Tidy(After1(w, m))
  {
  }

  lemma {:induction false} LegalTidy(w: World, moves: seq<Move>, p: Process)
    requires Legal(w, moves) && AllUnlock(w, moves) && p in w && Tidy(w[p])
    ensures p in After(w, moves) && Tidy(After(w, moves)[p])
    decreases |moves|
  {
    if moves != [] {
      if moves[0].p == p {
        MoveTidy(w, moves[0]);
      }
      LegalTidy(w[moves[0].p := After1(w, moves[0])], moves[1..], p);
    }
  }

  /** No lock is left behind: in every run without a failing unlock, whoever is at rest has locked exactly the bytes of
      its permissions. */
  lemma NoLockLeft(w: World, moves: seq<Move>, p: Process)
    requires Opened(w) && Legal(w, moves) && AllUnlock(w, moves) && p in w
    ensures p in After(w, moves)
    ensures After(w, moves)[p].stage.Idle? ==> After(w, moves)[p].locked == Bytes(After(w, moves)[p].held)
  {
    AllPerms();
    LegalTidy(w, moves, p);
  }

  // ---- a change that nobody is in the way of ----

  /** One move before a run */
  lemma Precede(w: World, m: Move, v: World, rest: seq<Move>, u: World)
    requires Enabled(w, m) && v == w[m.p := After1(w, m)] && Legal(v, rest) && After(v, rest) == u
    ensures Legal(w, [m] + rest) && After(w, [m] + rest) == u
  {
    assert ([m] + rest)[1..] == rest;
  }

  lemma {:induction false} Then(w: World, a: seq<Move>, v: World, b: seq<Move>, u: World)
    requires Legal(w, a) && After(w, a) == v && Legal(v, b) && After(v, b) == u
    ensures Legal(w, a + b) && After(w, a + b) == u
    decreases |a|
  {
    if a == [] {
      assert a + b == b;
    } else {
      var w' := w[a[0].p := After1(w, a[0])];
      Then(w', a[1..], v, b, u);
      Precede(w, a[0], w', a[1..] + b, u);
      assert a + b == [a[0]] + (a[1..] + b);
    }
  }

  /** A process once its lock calls have been made: the wanted bytes are locked, and, unless it only prepares, no
      others. */
  function LocksMade(i: Image): Image
    requires i.stage.Applying?
  {
    var goal := i.stage.goal;
    i.(locked := i.Target(goal) + (if goal.ForPrepare? then i.locked else {}), stage := Applying(goal, {}))
  }

  lemma LocksMadeNext(w: World, m: Move)
    requires m.LockCall? && m.ok && Enabled(w, m) && Tidy(w[m.p])
    ensures After1(w, m).stage.Applying? && LocksMade(After1(w, m)) == LocksMade(w[m.p])
  {
    var (i, j) := (w[m.p], After1(w, m));
    assert j.Target(j.stage.goal) == i.Target(i.stage.goal);
    assert i.stage.goal.ForPrepare? ==> i.Target(i.stage.goal) + j.locked == i.Target(i.stage.goal) + i.locked;
  }

  lemma LocksMadeLast(i: Image)
    requires i.stage.Applying? && i.stage.todo == {} && Tidy(i)
    ensures LocksMade(i) == i
  {
    var t := i.Target(i.stage.goal);
    forall b | b in t ensures b in i.locked {
      assert b !in t - i.locked;
    }
    forall b | b in i.locked && !i.stage.goal.ForPrepare? ensures b in t {
      assert b !in i.locked - t;
    }
    assert i.locked == t + if i.stage.goal.ForPrepare? then i.locked else {};
  }

  lemma AppliesNothing(w: World, p: Process) returns (moves: seq<Move>, u: World)
    requires p in w && w[p].stage.Applying? && w[p].stage.todo == {} && Tidy(w[p])
    ensures Legal(w, moves) && After(w, moves) == u && u == w[p := LocksMade(w[p]).Applied(true)]
  {
    LocksMadeLast(w[p]);
    u := w[p := w[p].Applied(true)];
    assert Legal(u, []);
    Precede(w, EndApply(p), u, [], u);
    moves := [EndApply(p)] + [];
  }

  lemma Twice(w: World, p: Process, i: Image, j: Image)
    ensures w[p := i][p := j] == w[p := j]
  {
  }

  /** The loops of `raw_apply_lock_bytes` can run to their end. */
  lemma {:induction false} AppliesAll(w: World, p: Process) returns (moves: seq<Move>, u: World)
    requires p in w && w[p].stage.Applying? && Tidy(w[p])
    ensures Legal(w, moves) && After(w, moves) == u && u == w[p := LocksMade(w[p]).Applied(true)]
    decreases |w[p].stage.todo|
  {
    if w[p].stage.todo == {} {
      moves, u := AppliesNothing(w, p);
    } else {
      var b :| b in w[p].stage.todo;
      var m := LockCall(p, b, true);
      var v := w[p := After1(w, m)];
      MoveTidy(w, m);
      LocksMadeNext(w, m);
      Twice(w, p, v[p], LocksMade(v[p]).Applied(true));
      var rest;
      rest, u := AppliesAll(v, p);
      Precede(w, m, v, rest, u);
      moves := [m] + rest;
    }
  }

  /** All tests succeed if nobody else has locked the bytes. */
  lemma {:induction false} ChecksAll(w: World, p: Process) returns (moves: seq<Move>, u: World)
    requires p in w && w[p].stage.Checking? && forall b :: b in w[p].stage.todo ==> Free(w, p, b)
    ensures Legal(w, moves) && After(w, moves) == u && u == w[p := w[p].(stage := Prepared(w[p].stage.want))]
    decreases |w[p].stage.todo|
  {
    var i := w[p];
    if i.stage.todo == {} {
      u := w[p := i.(stage := Prepared(i.stage.want))];
      assert Legal(u, []);
      Precede(w, EndCheck(p), u, [], u);
      moves := [EndCheck(p)] + [];
    } else {
      var b :| b in i.stage.todo;
      var m := TestCall(p, b, true);
      var v := w[p := After1(w, m)];
      forall c | c in v[p].stage.todo ensures Free(v, p, c) {
        assert Free(w, p, c);
      }
      var rest;
      rest, u := ChecksAll(v, p);
      Precede(w, m, v, rest, u);
      moves := [m] + rest;
    }
  }

  /** A prepare can succeed if nobody has locked the opposite of a byte that is wanted. */
  lemma PrepareGranted(w: World, p: Process, want: EdgePerm) returns (moves: seq<Move>, u: World)
    requires p in w && w[p].stage.Idle? && Tidy(w[p]) && forall b :: b in Bytes(want) ==> Free(w, p, b.Opposite())
    ensures Legal(w, moves) && After(w, moves) == u
    ensures u == w[p := Image(w[p].held, Bytes(w[p].held) + Bytes(want), Prepared(want))]
  {
    var m := Prepare(p, want);
    var v := w[p := After1(w, m)];
    PrepareAsks(w[p], want);
    if w[p].Skips(want) {
      u := v;
      assert Bytes(w[p].held) + Bytes(want) == Bytes(w[p].held);
      assert Legal(u, []);
      Precede(w, m, u, [], u);
      moves := [m] + [];
    } else {
      var rest;
      rest, u := LocksGranted(w, p, want, v);
      Precede(w, m, v, rest, u);
      moves := [m] + rest;
    }
  }

  lemma LocksGranted(w: World, p: Process, want: EdgePerm, v: World) returns (moves: seq<Move>, u: World)
    requires p in w && w[p].stage.Idle? && Tidy(w[p]) && forall b :: b in Bytes(want) ==> Free(w, p, b.Opposite())
    requires v == w[p := w[p].Apply(ForPrepare(want))]
    ensures Legal(v, moves) && After(v, moves) == u
    ensures u == w[p := Image(w[p].held, Bytes(w[p].held) + Bytes(want), Prepared(want))]
  {
    var a, t := AppliesAll(v, p);
    assert Bytes(w[p].held) + Bytes(want) + Bytes(w[p].held) == Bytes(w[p].held) + Bytes(want);
    assert t == w[p := Image(w[p].held, Bytes(w[p].held) + Bytes(want), Checking(want, Opposites(Bytes(want))))];
    forall b | b in t[p].stage.todo ensures Free(t, p, b) {
      assert b.Opposite() in Bytes(want) && b.Opposite().Opposite() == b;
      assert Free(w, p, b);
    }
    var c;
    c, u := ChecksAll(t, p);
    Then(v, a, t, c, u);
    moves := a + c;
  }

  /** And then it can be committed: the process has the new permissions and exactly their bytes. */
  lemma ChangeGranted(w: World, p: Process, want: EdgePerm) returns (moves: seq<Move>, u: World)
    requires p in w && w[p].stage.Idle? && Tidy(w[p]) && forall b :: b in Bytes(want) ==> Free(w, p, b.Opposite())
    ensures Legal(w, moves) && After(w, moves) == u && u == w[p := Image(want, Bytes(want), Idle)]
  {
    var a, t := PrepareGranted(w, p, want);
    var b;
    b, u := CommitGoes(t, p, want);
    Then(w, a, t, b, u);
    moves := a + b;
  }

  lemma CommitGoes(t: World, p: Process, want: EdgePerm) returns (moves: seq<Move>, u: World)
    requires p in t && t[p].stage == Prepared(want)
    ensures Legal(t, moves) && After(t, moves) == u && u == t[p := Image(want, Bytes(want), Idle)]
  {
    var m := Commit(p);
    var v := t[p := After1(t, m)];
    assert Tidy(v[p]);
    var b;
    b, u := AppliesAll(v, p);
    assert Bytes(want) + {} == Bytes(want);
    Precede(t, m, v, b, u);
    moves := [m] + b;
  }
}
