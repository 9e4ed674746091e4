/** Exclusive sections of virtual CPUs: every interleaving of `start_exclusive`, `end_exclusive`,
    `cpu_exec_start` and `cpu_exec_end`, one access to shared data per step. */
module CpuExclusive {
  import opened Options

  type Cpu = nat

  /** Where a CPU stands. The stages marked L run with the CPU list lock held. */
  datatype Stage =
    | Idle
    // cpu_exec_start
    | StartRead | StartLock
    | StartCheck   // L
    | StartRetest  // L, the test of exclusive_idle
    | StartParked | StartWoken
    | StartRun     // L
    | StartUnlock  // L
    | Running
    // cpu_exec_end
    | EndRead | EndLock
    | EndCheck     // L
    | EndSignal    // L
    | EndUnlock    // L
    // start_exclusive
    | ExclLock
    | ExclRetest   // L, the test of exclusive_idle
    | ExclParked | ExclWoken
    | ExclClaim    // L
    | Scan(todo: set<Cpu>, found: nat) // L
    | WaitRetest   // L
    | WaitParked | WaitWoken
    | Exclusive
    // end_exclusive
    | ReleaseLock
    | ReleaseSet       // L
    | ReleaseBroadcast // L
    | ReleaseUnlock    // L
  {
    predicate Locked() {
      || StartCheck? || StartRetest? || StartRun? || StartUnlock? || EndCheck? || EndSignal? || EndUnlock?
      || ExclRetest? || ExclClaim? || Scan? || WaitRetest? || ReleaseSet? || ReleaseBroadcast? || ReleaseUnlock?
    }

    predicate FlaggedRunning() {
      StartRead? || StartLock? || StartCheck? || StartUnlock? || Running?
    }

    /** About to run guest code, or running it, without another look at `pending_cpus`. */
    predicate MayRun() {
      StartRun? || StartUnlock? || Running?
    }

    /** Between the write of 1 and the write of 0 to `pending_cpus`. */
    predicate Owns() {
      Scan? || WaitRetest? || WaitParked? || WaitWoken? || Holds()
    }

    predicate Holds() {
      Exclusive? || ReleaseLock? || ReleaseSet?
    }

    /** Will still pass through the locked part of `cpu_exec_end`. */
    predicate WillReport() {
      FlaggedRunning() || EndRead? || EndLock? || EndCheck?
    }

    predicate ParkedOnResume() {
      StartParked? || ExclParked?
    }
  }

  /** A CPU: its place, `running`, and `exclusive_context_count`. */
  datatype Vcpu = Vcpu(stage: Stage, running: bool, nesting: nat) {
    predicate Ok() {
      running == stage.FlaggedRunning() && (nesting > 0 <==> stage.Exclusive?)
    }
  }

  /** `hasWaiter` holds the CPUs whose `has_waiter` is set; `pending` is `pending_cpus`. */
  datatype State = State(cpus: map<Cpu, Vcpu>, hasWaiter: set<Cpu>, pending: int, lock: Option<Cpu>) {
    function At(c: Cpu, p: Stage): State
      requires c in cpus
    {
      this.(cpus := cpus[c := cpus[c].(stage := p)])
    }

    function Flagged(c: Cpu, p: Stage, running: bool): State
      requires c in cpus
    {
      this.(cpus := cpus[c := cpus[c].(stage := p, running := running)])
    }

    function Nested(c: Cpu, p: Stage, nesting: nat): State
      requires c in cpus
    {
      this.(cpus := cpus[c := cpus[c].(stage := p, nesting := nesting)])
    }

    function Released(c: Cpu, p: Stage): State
      requires c in cpus
    {
      At(c, p).(lock := None)
    }

    predicate Scanning() {
      lock.Some? && lock.value in cpus && cpus[lock.value].stage.Scan?
    }

    predicate Broadcasting() {
      lock.Some? && lock.value in cpus && cpus[lock.value].stage.ReleaseBroadcast?
    }

    predicate Signalling() {
      lock.Some? && lock.value in cpus && cpus[lock.value].stage.EndSignal?
    }
  }

  /** `qemu_cond_broadcast(&exclusive_resume)`. */
  function Resumed(v: Vcpu): Vcpu {
    if v.stage.StartParked? then v.(stage := StartWoken) else if v.stage.ExclParked? then v.(stage := ExclWoken) else v
  }

  /** `qemu_cond_signal(&exclusive_cond)`: at most one CPU waits there, as `PairOk` says. */
  function Signalled(v: Vcpu): Vcpu {
    if v.stage.WaitParked? then v.(stage := WaitWoken) else v
  }

  ghost predicate Acquire(s: State, s': State, c: Cpu, p: Stage)
    requires c in s.cpus
  {
    s.lock.None? && s' == s.At(c, p).(lock := Some(c))
  }

  ghost predicate StartStep(s: State, s': State, c: Cpu)
    requires c in s.cpus
  {
    match s.cpus[c].stage
    case StartRead => s' == s.At(c, if s.pending != 0 then StartLock else Running)
    case StartLock => Acquire(s, s', c, StartCheck)
    case StartCheck => s' == if c in s.hasWaiter then s.At(c, StartUnlock) else s.Flagged(c, StartRetest, false)
    case StartRetest => s' == if s.pending != 0 then s.Released(c, StartParked) else s.At(c, StartRun)
    case StartParked => s' == s.At(c, StartWoken) // woken for no reason
    case StartWoken => Acquire(s, s', c, StartRetest)
    case StartRun => s' == s.Flagged(c, StartUnlock, true)
    case StartUnlock => s' == s.Released(c, Running)
    case _ => false
  }

  ghost predicate EndStep(s: State, s': State, c: Cpu)
    requires c in s.cpus
  {
    match s.cpus[c].stage
    case Running => s' == s.Flagged(c, EndRead, false)
    case EndRead => s' == s.At(c, if s.pending != 0 then EndLock else Idle)
    case EndLock => Acquire(s, s', c, EndCheck)
    case EndCheck =>
      s' == if c in s.hasWaiter then s.At(c, EndSignal).(hasWaiter := s.hasWaiter - {c}, pending := s.pending - 1)
          else s.At(c, EndUnlock)
    case EndSignal =>
      s' == if s.pending == 1 then s.(cpus := map d | d in s.cpus :: Signalled(s.cpus[d])).At(c, EndUnlock)
          else s.At(c, EndUnlock)
    case EndUnlock => s' == s.Released(c, Idle)
    case _ => false
  }

  ghost predicate ClaimStep(s: State, s': State, c: Cpu)
    requires c in s.cpus
  {
    match s.cpus[c].stage
    case ExclLock => Acquire(s, s', c, ExclRetest)
    case ExclRetest => s' == if s.pending != 0 then s.Released(c, ExclParked) else s.At(c, ExclClaim)
    case ExclParked => s' == s.At(c, ExclWoken) // woken for no reason
    case ExclWoken => Acquire(s, s', c, ExclRetest)
    case ExclClaim => s' == s.At(c, Scan(s.cpus.Keys, 0)).(pending := 1)
    case Scan(todo, found) =>
      if todo == {} then s' == s.At(c, WaitRetest).(pending := found + 1)
      else exists d :: d in todo && d in s.cpus && s' == Scanned(s, c, d)
    case WaitRetest => s' == if s.pending > 1 then s.Released(c, WaitParked)
        else s.Nested(c, Exclusive, 1).(lock := None)
    case WaitParked => s' == s.At(c, WaitWoken) // woken for no reason
    case WaitWoken => Acquire(s, s', c, WaitRetest)
    case _ => false
  }

  /** One round of the scan: CPU `d` is asked to report if it runs. */
  function Scanned(s: State, c: Cpu, d: Cpu): State
    requires c in s.cpus && s.cpus[c].stage.Scan? && d in s.cpus
  {
    var p := s.cpus[c].stage;
    if s.cpus[d].running then s.At(c, Scan(p.todo - {d}, p.found + 1)).(hasWaiter := s.hasWaiter + {d})
    else s.At(c, Scan(p.todo - {d}, p.found))
  }

  ghost predicate ReleaseStep(s: State, s': State, c: Cpu)
    requires c in s.cpus
  {
    var n := s.cpus[c].nesting;
    match s.cpus[c].stage
    case Exclusive =>
      || s' == s.Nested(c, Exclusive, n + 1) // start_exclusive once more
      || (n > 0 && s' == s.Nested(c, if n == 1 then ReleaseLock else Exclusive, n - 1))
    case ReleaseLock => Acquire(s, s', c, ReleaseSet)
    case ReleaseSet => s' == s.At(c, ReleaseBroadcast).(pending := 0)
    case ReleaseBroadcast => s' == s.(cpus := map d | d in s.cpus :: Resumed(s.cpus[d])).At(c, ReleaseUnlock)
    case ReleaseUnlock => s' == s.Released(c, Idle)
    case _ => false
  }

  /** The two calls an idle CPU may make. */
  ghost predicate CallStep(s: State, s': State, c: Cpu)
    requires c in s.cpus
  {
    s.cpus[c].stage.Idle? && (s' == s.Flagged(c, StartRead, true) || s' == s.At(c, ExclLock))
  }

  ghost predicate Step(s: State, s': State, c: Cpu) {
    && c in s.cpus
    && (CallStep(s, s', c) || StartStep(s, s', c) || EndStep(s, s', c) || ClaimStep(s, s', c) || ReleaseStep(s, s', c))
  }

  ghost predicate Init(s: State) {
    && (forall c :: c in s.cpus ==> s.cpus[c] == Vcpu(Idle, false, 0))
    && s.hasWaiter == {} && s.pending == 0 && s.lock == None
  }

  ghost predicate AnyStep(s: State, s': State) {
    exists c :: Step(s, s', c)
  }

  ghost predicate StepAt(run: seq<State>, i: nat)
    requires 0 < i < |run|
  {
    AnyStep(run[i - 1], run[i])
  }

  ghost predicate IsRun(run: seq<State>) {
    |run| > 0 && Init(run[0]) && forall i :: 0 < i < |run| ==> StepAt(run, i)
  }

  ghost predicate Domains(s: State) {
    s.hasWaiter <= s.cpus.Keys && (s.lock.Some? ==> s.lock.value in s.cpus)
  }

  /** The flags of one CPU say where it stands. */
  ghost predicate FlagsOk(s: State, c: Cpu)
    requires c in s.cpus
  {
    && s.cpus[c].Ok()
    && (s.cpus[c].stage.Locked() <==> s.lock == Some(c))
    && (c in s.hasWaiter ==> s.cpus[c].stage.WillReport())
  }

  /** What the place of one CPU says of `pending_cpus`. */
  ghost predicate CountOk(s: State, c: Cpu)
    requires c in s.cpus
  {
    var p := s.cpus[c].stage;
    && (p.StartRun? || p.ExclClaim? ==> s.pending == 0)
    && (p.StartUnlock? ==> s.pending == 0 || c in s.hasWaiter)
    && (p.Owns() ==> s.pending > 0)
    && (p.Holds() ==> s.pending == 1)
    && (p.Scan? ==> p.todo <= s.cpus.Keys && p.todo !! s.hasWaiter && p.found == |s.hasWaiter| && s.pending == 1)
  }

  /** No wake-up is lost: a parked CPU still has something to wait for, or is about to be woken. */
  ghost predicate WakeOk(s: State, c: Cpu)
    requires c in s.cpus
  {
    && (s.cpus[c].stage.ParkedOnResume() ==> s.pending != 0 || s.Broadcasting())
    && (s.cpus[c].stage.WaitParked? ==> s.pending > 1 || s.Signalling())
  }

  /** While `a` owns the section, a CPU that it has looked at and found idle stays out of guest code. */
  ghost predicate PairOk(s: State, a: Cpu, b: Cpu)
    requires a in s.cpus && b in s.cpus
  {
    var p := s.cpus[a].stage;
    p.Owns() ==>
      && (s.cpus[b].stage.Owns() ==> a == b)
      && (b !in s.hasWaiter && !(p.Scan? && b in p.todo) ==> !s.cpus[b].stage.MayRun())
  }

  /** Once the scan is over, `pending_cpus` counts the owner and the CPUs it waits for. */
  ghost predicate PendingOk(s: State) {
    if s.Scanning() then s.pending == 1
    else if s.pending == 0 then s.hasWaiter == {} else s.pending == 1 + |s.hasWaiter|
  }

  ghost predicate Inv(s: State) {
    && Domains(s) && PendingOk(s)
    && (forall c :: c in s.cpus ==> FlagsOk(s, c) && CountOk(s, c) && WakeOk(s, c))
    && (forall a, b :: a in s.cpus && b in s.cpus ==> PairOk(s, a, b))
  }

  ghost predicate Known(s: State, c: Cpu, d: Cpu) {
    && Domains(s) && PendingOk(s) && c in s.cpus && d in s.cpus && FlagsOk(s, c) && FlagsOk(s, d) && CountOk(s, c)
       && CountOk(s, d)
    && PairOk(s, c, d)
  }

  lemma CallKeepsCpu(s: State, s': State, c: Cpu, d: Cpu)
    requires Known(s, c, d) && CallStep(s, s', c) && d in s'.cpus
    ensures FlagsOk(s', d) && CountOk(s', d)
  {
    if c == d {
    }
  }

  lemma CallKeepsPair(s: State, s': State, c: Cpu, a: Cpu, b: Cpu)
    requires Known(s, c, a) && Known(s, c, b) && PairOk(s, a, b) && WakeOk(s, b) && CallStep(s, s', c) && a in s'.cpus
             && b in s'.cpus
    ensures PairOk(s', a, b) && WakeOk(s', b)
  {
  }

  lemma CallKeepsPending(s: State, s': State, c: Cpu)
    requires Domains(s) && PendingOk(s) && c in s.cpus && FlagsOk(s, c) && CountOk(s, c) && CallStep(s, s', c)
    ensures PendingOk(s') && Domains(s') && s'.cpus.Keys == s.cpus.Keys
  {
  }

  lemma StartKeepsCpu(s: State, s': State, c: Cpu, d: Cpu)
    requires Known(s, c, d) && StartStep(s, s', c) && d in s'.cpus
    ensures FlagsOk(s', d) && CountOk(s', d)
  {
    if c == d {
    }
  }

  lemma StartKeepsPair(s: State, s': State, c: Cpu, a: Cpu, b: Cpu)
    requires Known(s, c, a) && Known(s, c, b) && PairOk(s, a, b) && WakeOk(s, b) && StartStep(s, s', c) && a in s'.cpus
             && b in s'.cpus
    ensures PairOk(s', a, b) && WakeOk(s', b)
  {
  }

  lemma StartKeepsPending(s: State, s': State, c: Cpu)
    requires Domains(s) && PendingOk(s) && c in s.cpus && FlagsOk(s, c) && CountOk(s, c) && StartStep(s, s', c)
    ensures PendingOk(s') && Domains(s') && s'.cpus.Keys == s.cpus.Keys
  {
  }

  /** A CPU with a waiter is counted beside the owner. */
  lemma WaiterCounts(s: State, c: Cpu)
    requires Domains(s) && PendingOk(s) && c in s.cpus && FlagsOk(s, c)
    ensures c in s.hasWaiter ==> s.pending != 0 && (s.cpus[c].stage.EndCheck? ==> s.pending >= 2)
  {
    assert c in s.hasWaiter ==> s.hasWaiter != {};
  }

  lemma EndKeepsFlags(s: State, s': State, c: Cpu, d: Cpu)
    requires c in s.cpus && d in s.cpus && FlagsOk(s, c) && FlagsOk(s, d) && EndStep(s, s', c) && d in s'.cpus
    requires c in s.hasWaiter ==> s.pending != 0
    ensures FlagsOk(s', d)
  {
  }

  lemma EndKeepsCount(s: State, s': State, c: Cpu, d: Cpu)
    requires c in s.cpus && d in s.cpus && FlagsOk(s, c) && FlagsOk(s, d) && CountOk(s, d) && EndStep(s, s', c)
             && d in s'.cpus
    requires c in s.hasWaiter && s.cpus[c].stage.EndCheck? ==> s.pending >= 2
    ensures CountOk(s', d)
  {
  }

  lemma EndKeepsWake(s: State, s': State, c: Cpu, d: Cpu)
    requires c in s.cpus && d in s.cpus && FlagsOk(s, c) && FlagsOk(s, d) && CountOk(s, d) && WakeOk(s, d)
             && EndStep(s, s', c) && d in s'.cpus
    requires c in s.hasWaiter && s.cpus[c].stage.EndCheck? ==> s.pending >= 2
    ensures WakeOk(s', d)
  {
  }

  lemma EndKeepsPairs(s: State, s': State, c: Cpu, a: Cpu, b: Cpu)
    requires c in s.cpus && a in s.cpus && b in s.cpus && FlagsOk(s, c) && FlagsOk(s, a) && FlagsOk(s, b)
    requires PairOk(s, a, b) && EndStep(s, s', c) && a in s'.cpus && b in s'.cpus
    ensures PairOk(s', a, b)
  {
  }

  lemma EndKeepsCpu(s: State, s': State, c: Cpu, d: Cpu)
    requires Known(s, c, d) && EndStep(s, s', c) && d in s'.cpus
    ensures FlagsOk(s', d) && CountOk(s', d)
  {
    WaiterCounts(s, c);
    EndKeepsFlags(s, s', c, d);
    EndKeepsCount(s, s', c, d);
  }

  lemma EndKeepsPair(s: State, s': State, c: Cpu, a: Cpu, b: Cpu)
    requires Known(s, c, a) && Known(s, c, b) && PairOk(s, a, b) && WakeOk(s, b) && EndStep(s, s', c) && a in s'.cpus
             && b in s'.cpus
    ensures PairOk(s', a, b) && WakeOk(s', b)
  {
    WaiterCounts(s, c);
    EndKeepsPairs(s, s', c, a, b);
    EndKeepsWake(s, s', c, b);
  }

  lemma EndKeepsPending(s: State, s': State, c: Cpu)
    requires Domains(s) && PendingOk(s) && c in s.cpus && FlagsOk(s, c) && CountOk(s, c) && EndStep(s, s', c)
    ensures PendingOk(s') && Domains(s') && s'.cpus.Keys == s.cpus.Keys
  {
  }

  lemma ClaimKeepsFlags(s: State, s': State, c: Cpu, d: Cpu)
    requires c in s.cpus && d in s.cpus && FlagsOk(s, c) && FlagsOk(s, d) && ClaimStep(s, s', c) && d in s'.cpus
    ensures FlagsOk(s', d)
  {
  }

  lemma ScannedCount(s: State, c: Cpu, d: Cpu)
    requires Domains(s) && PendingOk(s) && c in s.cpus && CountOk(s, c) && s.cpus[c].stage.Scan?
    requires d in s.cpus && d in s.cpus[c].stage.todo && c in Scanned(s, c, d).cpus
    ensures CountOk(Scanned(s, c, d), c)
  {
  }

  lemma ClaimKeepsOwnCount(s: State, s': State, c: Cpu)
    requires Domains(s) && PendingOk(s) && c in s.cpus && FlagsOk(s, c) && CountOk(s, c) && ClaimStep(s, s', c)
    requires c in s'.cpus
    ensures CountOk(s', c)
  {
    var p := s.cpus[c].stage;
    if p.Scan? && p.todo != {} {
      var d :| d in p.todo && d in s.cpus && s' == Scanned(s, c, d);
      ScannedCount(s, c, d);
    }
  }

  lemma ClaimKeepsCount(s: State, s': State, c: Cpu, d: Cpu)
    requires Known(s, c, d) && ClaimStep(s, s', c) && d in s'.cpus
    ensures CountOk(s', d)
  {
    if c == d {
      ClaimKeepsOwnCount(s, s', c);
    }
  }

  lemma ClaimKeepsCpu(s: State, s': State, c: Cpu, d: Cpu)
    requires Known(s, c, d) && ClaimStep(s, s', c) && d in s'.cpus
    ensures FlagsOk(s', d) && CountOk(s', d)
  {
    ClaimKeepsFlags(s, s', c, d);
    ClaimKeepsCount(s, s', c, d);
  }

  lemma ClaimKeepsWake(s: State, s': State, c: Cpu, b: Cpu)
    requires Known(s, c, b) && WakeOk(s, b) && ClaimStep(s, s', c) && b in s'.cpus
    ensures WakeOk(s', b)
  {
  }

  lemma ClaimKeepsOthers(s: State, s': State, c: Cpu, a: Cpu, b: Cpu)
    requires Known(s, c, a) && Known(s, c, b) && PairOk(s, a, b) && ClaimStep(s, s', c) && a in s'.cpus && b in s'.cpus
    ensures PairOk(s', a, b)
  {
  }

  lemma ClaimKeepsPair(s: State, s': State, c: Cpu, a: Cpu, b: Cpu)
    requires Known(s, c, a) && Known(s, c, b) && PairOk(s, a, b) && WakeOk(s, b) && ClaimStep(s, s', c) && a in s'.cpus
             && b in s'.cpus
    ensures PairOk(s', a, b) && WakeOk(s', b)
  {
    ClaimKeepsOthers(s, s', c, a, b);
    ClaimKeepsWake(s, s', c, b);
  }

  lemma ClaimKeepsPending(s: State, s': State, c: Cpu)
    requires Domains(s) && PendingOk(s) && c in s.cpus && FlagsOk(s, c) && CountOk(s, c) && ClaimStep(s, s', c)
    ensures PendingOk(s') && Domains(s') && s'.cpus.Keys == s.cpus.Keys
  {
  }

  lemma ReleaseKeepsCpu(s: State, s': State, c: Cpu, d: Cpu)
    requires Known(s, c, d) && ReleaseStep(s, s', c) && d in s'.cpus
    ensures FlagsOk(s', d) && CountOk(s', d)
  {
    if c == d {
    }
  }

  lemma ReleaseKeepsPair(s: State, s': State, c: Cpu, a: Cpu, b: Cpu)
    requires Known(s, c, a) && Known(s, c, b) && PairOk(s, a, b) && WakeOk(s, b) && ReleaseStep(s, s', c)
             && a in s'.cpus && b in s'.cpus
    ensures PairOk(s', a, b) && WakeOk(s', b)
  {
  }

  lemma ReleaseKeepsPending(s: State, s': State, c: Cpu)
    requires Domains(s) && PendingOk(s) && c in s.cpus && FlagsOk(s, c) && CountOk(s, c) && ReleaseStep(s, s', c)
    ensures PendingOk(s') && Domains(s') && s'.cpus.Keys == s.cpus.Keys
  {
  }

  lemma KeepsPending(s: State, s': State, c: Cpu)
    requires Domains(s) && PendingOk(s) && c in s.cpus && FlagsOk(s, c) && CountOk(s, c) && Step(s, s', c)
    ensures PendingOk(s') && Domains(s') && s'.cpus.Keys == s.cpus.Keys
  {
    if
    case CallStep(s, s', c) => CallKeepsPending(s, s', c);
    case StartStep(s, s', c) => StartKeepsPending(s, s', c);
    case EndStep(s, s', c) => EndKeepsPending(s, s', c);
    case ClaimStep(s, s', c) => ClaimKeepsPending(s, s', c);
    case ReleaseStep(s, s', c) => ReleaseKeepsPending(s, s', c);
  }

  lemma KeepsCpu(s: State, s': State, c: Cpu, d: Cpu)
    requires Known(s, c, d) && Step(s, s', c) && d in s'.cpus
    ensures FlagsOk(s', d) && CountOk(s', d)
  {
    if
    case CallStep(s, s', c) => CallKeepsCpu(s, s', c, d);
    case StartStep(s, s', c) => StartKeepsCpu(s, s', c, d);
    case EndStep(s, s', c) => EndKeepsCpu(s, s', c, d);
    case ClaimStep(s, s', c) => ClaimKeepsCpu(s, s', c, d);
    case ReleaseStep(s, s', c) => ReleaseKeepsCpu(s, s', c, d);
  }

  lemma KeepsPair(s: State, s': State, c: Cpu, a: Cpu, b: Cpu)
    requires Known(s, c, a) && Known(s, c, b) && PairOk(s, a, b) && WakeOk(s, b) && Step(s, s', c) && a in s'.cpus
             && b in s'.cpus
    ensures PairOk(s', a, b) && WakeOk(s', b)
  {
    if
    case CallStep(s, s', c) => CallKeepsPair(s, s', c, a, b);
    case StartStep(s, s', c) => StartKeepsPair(s, s', c, a, b);
    case EndStep(s, s', c) => EndKeepsPair(s, s', c, a, b);
    case ClaimStep(s, s', c) => ClaimKeepsPair(s, s', c, a, b);
    case ReleaseStep(s, s', c) => ReleaseKeepsPair(s, s', c, a, b);
  }

  /** Every step keeps the invariant. */
  lemma StepKeeps(s: State, s': State, c: Cpu)
    requires Inv(s) && Step(s, s', c)
    ensures Inv(s')
  {
    KeepsPending(s, s', c);
    forall d | d in s'.cpus ensures FlagsOk(s', d) && CountOk(s', d) && WakeOk(s', d) {
      KeepsCpu(s, s', c, d);
      KeepsPair(s, s', c, d, d);
    }
    forall a, b | a in s'.cpus && b in s'.cpus ensures PairOk(s', a, b) {
      KeepsPair(s, s', c, a, b);
    }
  }

  lemma {:induction false} RunKeeps(run: seq<State>, i: nat)
    requires IsRun(run) && i < |run|
    ensures Inv(run[i])
  {
    if i > 0 {
      RunKeeps(run, i - 1);
      assert StepAt(run, i);
      var c :| Step(run[i - 1], run[i], c);
      StepKeeps(run[i - 1], run[i], c);
    }
  }

  /** At no point of any run does a CPU execute guest code, or hold the section, while another one holds it;
      past its scan the owner is counted with exactly the CPUs that it waits for. */
  lemma ExclusiveAlone(run: seq<State>, i: nat, a: Cpu, b: Cpu)
    requires IsRun(run) && i < |run| && a in run[i].cpus && b in run[i].cpus
    ensures var s := run[i];
            && (s.cpus[a].stage.Holds() ==> !s.cpus[b].stage.Running? && (s.cpus[b].stage.Holds() ==> a == b))
            && (s.cpus[a].stage.Owns() && !s.cpus[a].stage.Scan? ==> s.pending == 1 + |s.hasWaiter|)
            && (s.cpus[a].stage.Idle? ==> !s.cpus[a].running)
  {
    RunKeeps(run, i);
    var s := run[i];
    assert PairOk(s, a, b);
    assert s.Scanning() ==> PairOk(s, a, s.lock.value);
  }

  /** No wake-up is lost: outside the locked steps that are about to wake it, a parked CPU has a reason to stay
      parked. */
  lemma NoLostWakeup(run: seq<State>, i: nat, c: Cpu)
    requires IsRun(run) && i < |run| && c in run[i].cpus && run[i].lock.None?
    ensures run[i].cpus[c].stage.ParkedOnResume() ==> run[i].pending != 0
    ensures run[i].cpus[c].stage.WaitParked? ==>
              exists d :: d in run[i].hasWaiter && d in run[i].cpus && run[i].cpus[d].stage.WillReport()
  {
    RunKeeps(run, i);
    var s := run[i];
    assert WakeOk(s, c) && FlagsOk(s, c);
    if s.cpus[c].stage.WaitParked? {
      assert s.hasWaiter != {};
      var d :| d in s.hasWaiter;
      assert FlagsOk(s, d);
    }
  }

  // ---- the section is given, and left ----

  ghost predicate SoloAt(path: seq<State>, c: Cpu, i: nat)
    requires 0 < i < |path|
  {
    Step(path[i - 1], path[i], c)
  }

  /** CPU `c` goes from `s` to `t` while no other moves. */
  ghost predicate Solo(path: seq<State>, c: Cpu, s: State, t: State) {
    |path| > 0 && path[0] == s && path[|path| - 1] == t && forall i :: 0 < i < |path| ==> SoloAt(path, c, i)
  }

  lemma SoloGrows(path: seq<State>, c: Cpu, s: State, t: State, u: State) returns (path': seq<State>)
    requires Solo(path, c, s, t) && Step(t, u, c)
    ensures Solo(path', c, s, u)
  {
    path' := path + [u];
    forall i | 0 < i < |path'| ensures SoloAt(path', c, i) {
      assert i < |path| ==> SoloAt(path, c, i);
    }
  }

  ghost predicate NoneRunning(s: State) {
    forall d :: d in s.cpus ==> !s.cpus[d].running
  }

  /** A scan that finds no CPU running ends with the section. */
  lemma {:induction false} ScanPasses(path: seq<State>, c: Cpu, s: State, t: State)
      returns (path': seq<State>, u: State)
    requires Solo(path, c, s, t) && c in t.cpus && NoneRunning(t)
    requires t.cpus[c].stage.Scan? && t.cpus[c].stage.found == 0 && t.cpus[c].stage.todo <= t.cpus.Keys
    ensures Solo(path', c, s, u) && u == t.Nested(c, Exclusive, 1).(pending := 1, lock := None)
    decreases |t.cpus[c].stage.todo|
  {
    var todo := t.cpus[c].stage.todo;
    if todo == {} {
      var v := t.At(c, WaitRetest).(pending := 1);
      path' := SoloGrows(path, c, s, t, v);
      u := v.Nested(c, Exclusive, 1).(lock := None);
      path' := SoloGrows(path', c, s, v, u);
    } else {
      var d :| d in todo;
      var v := t.At(c, Scan(todo - {d}, 0));
      assert Scanned(t, c, d) == v;
      path' := SoloGrows(path, c, s, t, v);
      path', u := ScanPasses(path', c, s, v);
    }
  }

  /** When nobody has claimed the section and no CPU runs, `start_exclusive` runs through to the end. */
  lemma SectionGiven(s: State, c: Cpu) returns (path: seq<State>, t: State)
    requires c in s.cpus && s.cpus[c] == Vcpu(Idle, false, 0) && s.lock.None? && s.pending == 0 && NoneRunning(s)
    ensures Solo(path, c, s, t) && t == s.Nested(c, Exclusive, 1).(pending := 1)
  {
    var a := s.At(c, ExclLock);
    path := SoloGrows([s], c, s, s, a);
    var b := a.At(c, ExclRetest).(lock := Some(c));
    path := SoloGrows(path, c, s, a, b);
    var d := b.At(c, ExclClaim);
    path := SoloGrows(path, c, s, b, d);
    var e := d.At(c, Scan(d.cpus.Keys, 0)).(pending := 1);
    path := SoloGrows(path, c, s, d, e);
    path, t := ScanPasses(path, c, s, e);
  }

  lemma BroadcastLeaves(path: seq<State>, c: Cpu, s: State, d: State) returns (path': seq<State>, t: State)
    requires Solo(path, c, s, d) && c in d.cpus && d.cpus[c].stage.ReleaseBroadcast?
    ensures Solo(path', c, s, t) && t.cpus.Keys == d.cpus.Keys && t.cpus[c] == d.cpus[c].(stage := Idle)
    ensures t.pending == d.pending && t.lock.None? && t.hasWaiter == d.hasWaiter
    ensures forall x :: x in t.cpus && x != c ==> t.cpus[x] == Resumed(d.cpus[x])
  {
    var e := d.(cpus := map x | x in d.cpus :: Resumed(d.cpus[x])).At(c, ReleaseUnlock);
    path' := SoloGrows(path, c, s, d, e);
    t := e.Released(c, Idle);
    path' := SoloGrows(path', c, s, e, t);
  }

  /** `end_exclusive` opens the section again and leaves nobody parked before it. */
  lemma SectionLeft(s: State, c: Cpu) returns (path: seq<State>, t: State)
    requires c in s.cpus && s.cpus[c] == Vcpu(Exclusive, false, 1) && s.lock.None?
    ensures Solo(path, c, s, t) && t.cpus.Keys == s.cpus.Keys && t.cpus[c] == Vcpu(Idle, false, 0)
    ensures t.pending == 0 && t.lock.None? && t.hasWaiter == s.hasWaiter
    ensures forall d :: d in t.cpus && d != c ==> t.cpus[d] == Resumed(s.cpus[d]) && !t.cpus[d].stage.ParkedOnResume()
  {
    var a := s.Nested(c, ReleaseLock, 0);
    path := SoloGrows([s], c, s, s, a);
    var b := a.At(c, ReleaseSet).(lock := Some(c));
    path := SoloGrows(path, c, s, a, b);
    var d := b.At(c, ReleaseBroadcast).(pending := 0);
    path := SoloGrows(path, c, s, b, d);
    path, t := BroadcastLeaves(path, c, s, d);
  }

  /** While nobody has claimed the section, `cpu_exec_start` goes straight to guest code. */
  lemma RunGiven(s: State, c: Cpu) returns (path: seq<State>, t: State)
    requires c in s.cpus && s.cpus[c].stage.Idle? && s.pending == 0
    ensures Solo(path, c, s, t) && t == s.Flagged(c, Running, true)
  {
    var a := s.Flagged(c, StartRead, true);
    path := SoloGrows([s], c, s, s, a);
    t := a.At(c, Running);
    path := SoloGrows(path, c, s, a, t);
  }

  lemma SignalLeaves(path: seq<State>, c: Cpu, s: State, e: State) returns (path': seq<State>, t: State)
    requires Solo(path, c, s, e) && c in e.cpus && e.cpus[c].stage.EndSignal?
    ensures Solo(path', c, s, t) && t.cpus.Keys == e.cpus.Keys && t.cpus[c] == e.cpus[c].(stage := Idle)
    ensures t.pending == e.pending && t.lock.None? && t.hasWaiter == e.hasWaiter
    ensures forall x :: x in t.cpus && x != c ==>
              t.cpus[x] == if e.pending == 1 then Signalled(e.cpus[x]) else e.cpus[x]
  {
    var f := if e.pending == 1 then e.(cpus := map x | x in e.cpus :: Signalled(e.cpus[x])).At(c, EndUnlock)
             else e.At(c, EndUnlock);
    path' := SoloGrows(path, c, s, e, f);
    t := f.Released(c, Idle);
    path' := SoloGrows(path', c, s, f, t);
  }

  /** A CPU that has been asked to reports at the end of its guest code; the last one wakes the owner. */
  lemma Reported(s: State, c: Cpu) returns (path: seq<State>, t: State)
    requires c in s.cpus && s.cpus[c].stage.Running? && c in s.hasWaiter && s.pending > 1 && s.lock.None?
    ensures Solo(path, c, s, t) && t.cpus.Keys == s.cpus.Keys && t.cpus[c].stage.Idle? && !t.cpus[c].running
    ensures t.hasWaiter == s.hasWaiter - {c} && t.pending == s.pending - 1 && t.lock.None?
    ensures forall d :: d in t.cpus && d != c ==>
              t.cpus[d] == if t.pending == 1 then Signalled(s.cpus[d]) else s.cpus[d]
  {
    var a := s.Flagged(c, EndRead, false);
    path := SoloGrows([s], c, s, s, a);
    var b := a.At(c, EndLock);
    path := SoloGrows(path, c, s, a, b);
    var d := b.At(c, EndCheck).(lock := Some(c));
    path := SoloGrows(path, c, s, b, d);
    var e := d.At(c, EndSignal).(hasWaiter := s.hasWaiter - {c}, pending := s.pending - 1);
    path := SoloGrows(path, c, s, d, e);
    path, t := SignalLeaves(path, c, s, e);
  }

  // ---- nobody waits for nothing ----

  /** A claimed section has an owner. */
  ghost predicate Owned(s: State) {
    s.pending != 0 ==> exists a :: a in s.cpus && s.cpus[a].stage.Owns()
  }

  lemma OwnerStays(s: State, s': State, c: Cpu, a: Cpu)
    requires c in s.cpus && a in s.cpus && Known(s, c, a) && Step(s, s', c) && s.cpus[a].stage.Owns()
    ensures a in s'.cpus && (s'.cpus[a].stage.Owns() || s'.pending == 0)
  {
    if
    case CallStep(s, s', c) =>
    case StartStep(s, s', c) =>
    case EndStep(s, s', c) =>
    case ClaimStep(s, s', c) =>
    case ReleaseStep(s, s', c) =>
  }

  lemma OwnerComes(s: State, s': State, c: Cpu)
    requires c in s.cpus && Domains(s) && PendingOk(s) && FlagsOk(s, c) && CountOk(s, c) && Step(s, s', c)
    requires s.pending == 0 && s'.pending != 0
    ensures c in s'.cpus && s'.cpus[c].stage.Owns()
  {
    if
    case CallStep(s, s', c) =>
    case StartStep(s, s', c) =>
    case EndStep(s, s', c) =>
    case ClaimStep(s, s', c) =>
    case ReleaseStep(s, s', c) =>
  }

  lemma OwnedKept(s: State, s': State, c: Cpu)
    requires Inv(s) && Owned(s) && Step(s, s', c)
    ensures Owned(s')
  {
    if s'.pending != 0 {
      if s.pending == 0 {
        OwnerComes(s, s', c);
      } else {
        var a :| a in s.cpus && s.cpus[a].stage.Owns();
        OwnerStays(s, s', c, a);
      }
    }
  }

  lemma {:induction false} RunOwned(run: seq<State>, i: nat)
    requires IsRun(run) && i < |run|
    ensures Owned(run[i])
  {
    if i > 0 {
      RunOwned(run, i - 1);
      RunKeeps(run, i - 1);
      assert StepAt(run, i);
      var c :| Step(run[i - 1], run[i], c);
      OwnedKept(run[i - 1], run[i], c);
    }
  }

  /** Not parked on a condition variable */
  predicate Awake(p: Stage) {
    !p.ParkedOnResume() && !p.WaitParked?
  }

  /** Whoever holds the list lock can go on. */
  lemma HolderMoves(s: State) returns (t: State)
    requires Inv(s) && s.lock.Some?
    ensures Step(s, t, s.lock.value)
  {
    var c := s.lock.value;
    assert FlagsOk(s, c) && CountOk(s, c);
    match s.cpus[c].stage {
      case StartCheck => t := if c in s.hasWaiter then s.At(c, StartUnlock) else s.Flagged(c, StartRetest, false);
      case StartRetest => t := if s.pending != 0 then s.Released(c, StartParked) else s.At(c, StartRun);
      case StartRun => t := s.Flagged(c, StartUnlock, true);
      case StartUnlock => t := s.Released(c, Running);
      case EndCheck =>
        t := if c in s.hasWaiter then s.At(c, EndSignal).(hasWaiter := s.hasWaiter - {c}, pending := s.pending - 1)
             else s.At(c, EndUnlock);
      case EndSignal =>
        t := if s.pending == 1 then s.(cpus := map d | d in s.cpus :: Signalled(s.cpus[d])).At(c, EndUnlock)
             else s.At(c, EndUnlock);
      case EndUnlock => t := s.Released(c, Idle);
      case ReleaseSet => t := s.At(c, ReleaseBroadcast).(pending := 0);
      case ReleaseBroadcast => t := s.(cpus := map d | d in s.cpus :: Resumed(s.cpus[d])).At(c, ReleaseUnlock);
      case ReleaseUnlock => t := s.Released(c, Idle);
      case _ => t := ClaimHolderMoves(s, c);
    }
  }

  lemma ClaimHolderMoves(s: State, c: Cpu) returns (t: State)
    requires c in s.cpus && CountOk(s, c)
    requires var p := s.cpus[c].stage; p.ExclRetest? || p.ExclClaim? || p.Scan? || p.WaitRetest?
    ensures Step(s, t, c)
  {
    match s.cpus[c].stage {
      case ExclRetest => t := if s.pending != 0 then s.Released(c, ExclParked) else s.At(c, ExclClaim);
      case ExclClaim => t := s.At(c, Scan(s.cpus.Keys, 0)).(pending := 1);
      case Scan(todo, found) =>
        if todo == {} {
          t := s.At(c, WaitRetest).(pending := found + 1);
        } else {
          var d :| d in todo;
          t := Scanned(s, c, d);
        }
      case WaitRetest =>
        t := if s.pending > 1 then s.Released(c, WaitParked) else s.Nested(c, Exclusive, 1).(lock := None);
    }
  }

  /** In no state of any run do all wait for each other: if a CPU is parked, another one is awake that holds the
      section, or has to go through `end_exclusive`, or through `cpu_exec_end`, before the first can go on. */
  lemma SomebodyAwake(run: seq<State>, i: nat, c: Cpu) returns (d: Cpu)
    requires IsRun(run) && i < |run| && c in run[i].cpus && !Awake(run[i].cpus[c].stage) && run[i].lock.None?
    ensures d in run[i].cpus && Awake(run[i].cpus[d].stage)
    ensures run[i].cpus[d].stage.Owns() || (d in run[i].hasWaiter && run[i].cpus[d].stage.WillReport())
  {
    RunKeeps(run, i);
    RunOwned(run, i);
    NoLostWakeup(run, i, c);
    var s := run[i];
    d := c;
    if s.cpus[c].stage.ParkedOnResume() {
      d :| d in s.cpus && s.cpus[d].stage.Owns();
    }
    if s.cpus[d].stage.WaitParked? {
      NoLostWakeup(run, i, d);
      d :| d in s.hasWaiter && d in s.cpus && s.cpus[d].stage.WillReport();
    }
  }
}
