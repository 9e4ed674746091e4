/** A job transaction: the status table, completion, cancelling, finalizing and aborting of its jobs, as steps of the
    main loop. The abort loop waits for jobs that still run, so their steps come in between. */
module Jobs {
  import opened Options
  import opened IdLists

  type Id = nat

  datatype Status = Undefined | Created | Running | Paused | Ready | Standby | Waiting | Pending | Aborting | Concluded
      | Null

  /** `JobSTT` */
  predicate Allowed(a: Status, b: Status) {
    match a
    case Undefined => b.Created?
    case Created => b.Running? || b.Aborting? || b.Null?
    case Running => b.Paused? || b.Ready? || b.Waiting? || b.Aborting?
    case Paused => b.Running?
    case Ready => b.Standby? || b.Waiting? || b.Aborting?
    case Standby => b.Ready?
    case Waiting => b.Pending? || b.Aborting?
    case Pending => b.Aborting? || b.Concluded?
    case Aborting => b.Aborting? || b.Concluded?
    case Concluded => b.Null?
    case Null => false
  }

  /** How far a job has come; jobs that run can be paused and become ready in between. */
  function Progress(s: Status): nat {
    match s
    case Undefined => 0
    case Created => 1
    case Running => 2
    case Paused => 2
    case Ready => 3
    case Standby => 3
    case Waiting => 4
    case Pending => 5
    case Aborting => 6
    case Concluded => 7
    case Null => 8
  }

  /** The table lets no job go back, and no status but that of an abort follows itself. From a status before the end a
      job can only get out by way of an abort, or of PENDING and the others. */
  lemma TableForward(a: Status, b: Status)
    requires Allowed(a, b)
    ensures Progress(a) <= Progress(b) && (a == b ==> a.Aborting?)
    ensures b.Concluded? ==> a.Pending? || a.Aborting?
    ensures b.Null? ==> a.Concluded? || a.Created?
    ensures b.Pending? ==> a.Waiting?
  {
  }

  const ECANCELED := 125

  /** A job. `commits` and `aborts` count the calls of the driver's `commit` and `abort`; `ok` says that no assertion
      of the code has failed on this job. */
  datatype Job = Job(status: Status, ret: int, cancelled: bool, forceCancel: bool, started: bool, deferred: bool,
                     autoFinalize: bool, autoDismiss: bool, commits: nat, aborts: nat, ok: bool)
  {
    /** `job_state_transition_locked` */
    function To(s: Status): Job {
      this.(status := s, ok := ok && Allowed(status, s))
    }

    function Assert(b: bool): Job {
      this.(ok := ok && b)
    }

    /** `job_is_completed_locked` */
    predicate Completed() {
      status.Waiting? || status.Pending? || status.Aborting? || status.Concluded? || status.Null?
    }

    predicate Doomed() {
      ret != 0 || forceCancel
    }

    /** `job_update_rc_locked` */
    function UpdateRc(): Job {
      var j := Assert(cancelled || !forceCancel).(ret := if ret == 0 && forceCancel then -ECANCELED else ret);
      if j.ret != 0 then j.To(Aborting) else j
    }

    /** `job_finalize_single_locked`, with `job_commit`, `job_abort` and `job_conclude_locked` */
    function Finalized(): Job {
      var j := Assert(Completed()).UpdateRc();
      var k := (if j.ret == 0 then j.(commits := j.commits + 1) else j.(aborts := j.aborts + 1)).To(Concluded);
      if k.autoDismiss || !k.started then k.(deferred := true).To(Null) else k
    }

    /** `job_cancel_async_locked`; `force` is what the driver made of the request. */
    function CancelAsync(force: bool): Job {
      if force || !deferred then this.(cancelled := true, forceCancel := forceCancel || force) else this
    }

    /** `job_prepare_locked`, where `result` is what the driver's `prepare` returns, if it has one */
    function Prepared(result: Option<int>): Job {
      if ret == 0 && result.Some? then this.(ret := result.value).UpdateRc() else this
    }
  }

  /** One failed assertion, or one change of status that the table does not allow, is enough. */
  lemma FailuresStick(j: Job, s: Status, b: bool)
    ensures j.To(s).ok <==> j.ok && Allowed(j.status, s)
    ensures j.Assert(b).ok <==> j.ok && b
  {
  }

  type JobMap = map<Id, Job>

  /** `abortBy` is empty until the transaction aborts; then it holds the job that began it, and whether that job
      had failed or been force-cancelled at that point, which no step looks at. */
  datatype Begun = Begun(initiator: Id, doomed: bool)
  datatype Txn = Txn(jobs: JobMap, members: seq<Id>, abortBy: Option<Begun>)

  function CancelOthers(jobs: JobMap, members: seq<Id>, but: Id): JobMap {
    map id | id in jobs :: if id in members && id != but then jobs[id].CancelAsync(true) else jobs[id]
  }

  /** `job_completed_txn_abort_locked` up to its loop */
  function BeginAbort(t: Txn, id: Id): Txn
    requires id in t.jobs
  {
    if t.abortBy.Some? then t
    else t.(abortBy := Some(Begun(id, t.jobs[id].Doomed())), jobs := CancelOthers(t.jobs, t.members, id))
  }

  function FinalizeOne(t: Txn, id: Id): Txn
    requires id in t.jobs
  {
    t.(jobs := t.jobs[id := t.jobs[id].Finalized()], members := Without(t.members, id))
  }

  function FinalizeAll(t: Txn): Txn {
    t.(jobs := map id | id in t.jobs :: if id in t.members then t.jobs[id].Finalized() else t.jobs[id], members := [])
  }

  function Lookup(m: map<Id, int>, id: Id): Option<int> {
    if id in m then Some(m[id]) else None
  }

  /** `job_txn_apply_locked` with `job_prepare_locked`: stops at the first job that does not return 0. */
  function PrepareAll(jobs: JobMap, list: seq<Id>, results: map<Id, int>): (JobMap, bool)
    requires forall id :: id in list ==> id in jobs
  {
    if list == [] then (jobs, true)
    else
      var j := jobs[list[0]].Prepared(Lookup(results, list[0]));
      if j.ret != 0 then (jobs[list[0] := j], false) else PrepareAll(jobs[list[0] := j], list[1..], results)
  }

  /** `job_do_finalize_locked` */
  function DoFinalize(t: Txn, id: Id, results: map<Id, int>): Txn
    requires id in t.jobs && forall m :: m in t.members ==> m in t.jobs
  {
    var (jobs, ok) := PrepareAll(t.jobs, t.members, results);
    if ok then FinalizeAll(t.(jobs := jobs)) else if id in jobs then BeginAbort(t.(jobs := jobs), id) else t
  }

  ghost predicate AllCompleted(jobs: JobMap, members: seq<Id>) {
    forall m :: m in members ==> m in jobs && jobs[m].Completed()
  }

  function AllPending(jobs: JobMap, members: seq<Id>): JobMap {
    map id | id in jobs :: if id in members then jobs[id].Assert(jobs[id].ret == 0).To(Pending) else jobs[id]
  }

  ghost predicate AllAuto(t: Txn) {
    forall m :: m in t.members ==> m in t.jobs && t.jobs[m].autoFinalize
  }

  /** `job_completed_txn_success_locked` */
  ghost function CompletedSuccess(t: Txn, id: Id, results: map<Id, int>): Txn
    requires id in t.jobs && forall m :: m in t.members ==> m in t.jobs
  {
    var w := t.(jobs := t.jobs[id := t.jobs[id].To(Waiting)]);
    if !AllCompleted(w.jobs, w.members) then w
    else
      var p := w.(jobs := AllPending(w.jobs, w.members));
      if AllAuto(p) then DoFinalize(p, id, results) else p
  }

  /** `job_completed_locked` */
  ghost function Completes(t: Txn, id: Id, results: map<Id, int>): Txn
    requires id in t.jobs && forall m :: m in t.members ==> m in t.jobs
  {
    var j := t.jobs[id].Assert(!t.jobs[id].Completed()).UpdateRc();
    var u := t.(jobs := t.jobs[id := j]);
    if j.ret != 0 then BeginAbort(u, id) else CompletedSuccess(u, id, results)
  }

  /** What can happen to job `id`. The numbers that drivers return come with the move. */
  datatype Action =
    | Start | BecomeReady | Pause | Resume
    | Return(ret: int)                                 // the driver's run() returns
    | Exit(results: map<Id, int>)                      // job_exit in the main loop
    | Cancel(force: bool, results: map<Id, int>)       // force: as the driver's cancel() decided
    | Finalize(results: map<Id, int>)
    | AbortNext                                        // one round of the abort loop
    | Dismiss

  datatype Move = Move(id: Id, action: Action)

  /** The abort loop has the main loop to itself unless it waits for a job. */
  predicate AbortRuns(t: Txn) {
    t.abortBy.Some? && t.members != [] && t.members[0] in t.jobs && t.jobs[t.members[0]].Completed()
  }

  predicate Enabled(t: Txn, m: Move) {
    && m.id in t.jobs
    && (AbortRuns(t) ==> m.action.BecomeReady? || m.action.Pause? || m.action.Resume? || m.action.Return?
                         || m.action.AbortNext?)
    && var j := t.jobs[m.id];
       match m.action
       case Start => j.status.Created?
       case BecomeReady => j.status.Running? && !j.deferred
       case Pause => (j.status.Running? || j.status.Ready?) && !j.deferred
       case Resume => j.status.Paused? || j.status.Standby?
       case Return(_) => (j.status.Running? || j.status.Ready?) && !j.deferred
       case Exit(_) => (j.status.Running? || j.status.Ready?) && j.deferred
       case Cancel(force, _) => // a job that is not ready cannot be told to finish early
         && !j.status.Undefined? && !j.status.Aborting? && !j.status.Concluded? && !j.status.Null?
         && (j.status.Created? ==> force)
       case Finalize(_) => j.status.Pending? && t.abortBy.None?
       case AbortNext => AbortRuns(t) && t.members[0] == m.id
       case Dismiss => j.status.Concluded?
  }

  function Put(t: Txn, id: Id, j: Job): Txn {
    t.(jobs := t.jobs[id := j])
  }

  /** `job_cancel_locked` */
  ghost function Cancels(t: Txn, id: Id, force: bool, results: map<Id, int>): Txn
    requires id in t.jobs && forall m :: m in t.members ==> m in t.jobs
  {
    var j := t.jobs[id].CancelAsync(force);
    var u := Put(t, id, j);
    if !j.started then Completes(u, id, results)
    else if j.deferred && j.forceCancel then BeginAbort(u, id)
    else u
  }

  ghost function Apply(t: Txn, m: Move): Txn
    requires Enabled(t, m) && forall k :: k in t.members ==> k in t.jobs
  {
    var j := t.jobs[m.id];
    match m.action
    case Start => Put(t, m.id, j.To(Running).(started := true))
    case BecomeReady => Put(t, m.id, j.To(Ready))
    case Pause => Put(t, m.id, j.To(if j.status.Ready? then Standby else Paused))
    case Resume => Put(t, m.id, j.To(if j.status.Standby? then Ready else Running))
    case Return(ret) => Put(t, m.id, j.(ret := ret, deferred := true))
    case Exit(results) => Completes(t, m.id, results)
    case Cancel(force, results) => Cancels(t, m.id, force, results)
    case Finalize(results) => DoFinalize(t, m.id, results)
    case AbortNext => FinalizeOne(t, m.id)
    case Dismiss => Put(t, m.id, j.To(Null))
  }

  // ---- the invariant ----

  ghost predicate JobOk(j: Job) {
    && j.ok && (j.forceCancel ==> j.cancelled) && !j.status.Undefined?
    && (j.status.Created? ==> !j.started && !j.deferred && j.ret == 0)
    && (j.status.Running? || j.status.Ready? || j.status.Paused? || j.status.Standby? ==> j.started)
    && (j.status.Waiting? || j.status.Pending? ==> j.started)
    && (j.status.Paused? || j.status.Standby? ==> !j.deferred)
    && (j.started && !j.deferred && !j.Completed() ==> j.ret == 0)
    && (j.status.Waiting? || j.status.Pending? ==> j.deferred)
    && (j.status.Aborting? ==> j.ret != 0)
  }

  /** A job that is still in the transaction. */
  ghost predicate Unfinished(j: Job) {
    JobOk(j) && j.commits == 0 && j.aborts == 0 && !j.status.Concluded? && !j.status.Null?
  }

  ghost predicate MemberOk(j: Job, id: Id, abortBy: Option<Begun>) {
    && Unfinished(j)
    && match abortBy
       case None => j.Completed() ==> !j.status.Aborting? && !j.Doomed()
       case Some(Begun(i, doomed)) =>
         && (id == i ==> (j.Doomed() <==> doomed) && (!doomed ==> j.status.Pending?))
         && (id != i || !j.Completed() ==> j.forceCancel)
         && (!doomed ==> j.Completed())
  }

  /** A job that has left the transaction has run exactly one of commit and abort. */
  ghost predicate GoneOk(j: Job, id: Id, abortBy: Option<Begun>) {
    && JobOk(j) && (j.status.Concluded? || j.status.Null?) && j.commits + j.aborts == 1
    && (j.autoDismiss || !j.started ==> j.status.Null?)
    && match abortBy
       case None => j.commits == 1
       case Some(Begun(i, doomed)) => j.commits == 1 <==> id == i && !doomed
  }

  ghost predicate Listed(jobs: JobMap, members: seq<Id>) {
    NoDup(members) && forall m :: m in members ==> m in jobs
  }

  ghost predicate EachOk(t: Txn) {
    forall id :: id in t.jobs ==> if id in t.members then MemberOk(t.jobs[id], id, t.abortBy)
        else GoneOk(t.jobs[id], id, t.abortBy)
  }

  /** Until an abort, jobs are pending together and leave together. */
  ghost predicate Together(jobs: JobMap, members: seq<Id>) {
    && (members == [] || forall id :: id in jobs ==> id in members)
    && (forall a, b :: a in jobs && b in jobs && jobs[a].status.Pending? ==> jobs[b].status.Pending?)
  }

  ghost predicate Inv(t: Txn) {
    Listed(t.jobs, t.members) && EachOk(t) && (t.abortBy.None? ==> Together(t.jobs, t.members))
  }

  /** Nobody has left yet. */
  ghost predicate Undecided(t: Txn) {
    && t.abortBy.None? && Listed(t.jobs, t.members) && (forall id :: id in t.jobs ==> id in t.members)
    && (forall id :: id in t.jobs ==> Unfinished(t.jobs[id]))
  }

  ghost predicate ReadyToCommit(j: Job) {
    Unfinished(j) && j.status.Pending? && !j.Doomed()
  }

  lemma BeginAbortOk(t: Txn, id: Id)
    requires Undecided(t) && id in t.jobs
    requires var j := t.jobs[id];
             && (j.Doomed() || (j.status.Pending? && forall m :: m in t.jobs ==> t.jobs[m].Completed()))
             && (!j.Completed() ==> j.forceCancel)
    ensures Inv(BeginAbort(t, id))
  {
  }

  lemma FinalizeAllOk(t: Txn)
    requires Undecided(t) && forall m :: m in t.members ==> ReadyToCommit(t.jobs[m])
    ensures Inv(FinalizeAll(t))
  {
  }

  lemma {:induction false} PrepareAllOk(jobs: JobMap, list: seq<Id>, results: map<Id, int>)
    requires Listed(jobs, list) && forall m :: m in list ==> ReadyToCommit(jobs[m])
    ensures var (jobs', ok) := PrepareAll(jobs, list, results);
            && jobs'.Keys == jobs.Keys && (forall m :: m in jobs && m !in list ==> jobs'[m] == jobs[m])
            && (forall m :: m in list ==>
                  Unfinished(jobs'[m]) && jobs'[m].Completed()
                  && (ReadyToCommit(jobs'[m]) || (!ok && jobs'[m].Doomed())))
  {
    if list != [] {
      var j := jobs[list[0]].Prepared(Lookup(results, list[0]));
      if j.ret == 0 {
        PrepareAllOk(jobs[list[0] := j], list[1..], results);
      }
      assert forall m :: m in list <==> m == list[0] || m in list[1..];
    }
  }

  lemma DoFinalizeOk(t: Txn, id: Id, results: map<Id, int>)
    requires Undecided(t) && id in t.jobs && forall m :: m in t.members ==> ReadyToCommit(t.jobs[m])
    ensures Inv(DoFinalize(t, id, results))
  {
    PrepareAllOk(t.jobs, t.members, results);
    var (jobs, ok) := PrepareAll(t.jobs, t.members, results);
    if ok {
      FinalizeAllOk(t.(jobs := jobs));
    } else {
      BeginAbortOk(t.(jobs := jobs), id);
    }
  }

  ghost predicate MayEnd(j: Job) {
    (j.status.Running? || j.status.Ready?) && j.deferred
  }

  /** The last job to get here takes all others along to PENDING. */
  lemma AllPendingOk(jobs: JobMap, members: seq<Id>)
    requires forall m :: m in jobs ==> m in members && MemberOk(jobs[m], m, None) && jobs[m].status.Waiting?
    ensures forall m :: m in jobs ==> ReadyToCommit(AllPending(jobs, members)[m])
  {
  }

  lemma WaitingOk(t: Txn, id: Id)
    requires Inv(t) && t.abortBy.None? && id in t.members && MayEnd(t.jobs[id]) && !t.jobs[id].Doomed()
    ensures var w := Put(t, id, t.jobs[id].To(Waiting));
            && Inv(w) && Undecided(w)
            && (AllCompleted(w.jobs, w.members) ==> forall m :: m in w.jobs ==> w.jobs[m].status.Waiting?)
  {
    assert forall m :: m in t.jobs ==> MemberOk(t.jobs[m], m, None);
  }

  lemma CompletedSuccessOk(t: Txn, id: Id, results: map<Id, int>)
    requires Inv(t) && t.abortBy.None? && id in t.members && MayEnd(t.jobs[id]) && !t.jobs[id].Doomed()
    ensures Inv(CompletedSuccess(t, id, results))
  {
    WaitingOk(t, id);
    var w := Put(t, id, t.jobs[id].To(Waiting));
    if AllCompleted(w.jobs, w.members) {
      assert forall m :: m in w.jobs ==> MemberOk(w.jobs[m], m, None);
      AllPendingOk(w.jobs, w.members);
      DoFinalizeOk(w.(jobs := AllPending(w.jobs, w.members)), id, results);
    }
  }

  /** One job changes, with no effect on the others. */
  lemma PutOk(t: Txn, id: Id, j: Job)
    requires Inv(t) && id in t.jobs
    requires if id in t.members then MemberOk(j, id, t.abortBy) else GoneOk(j, id, t.abortBy)
    requires t.jobs[id].status.Pending? <==> j.status.Pending?
    ensures Inv(Put(t, id, j))
  {
  }

  lemma PutUndecided(t: Txn, id: Id, j: Job)
    requires Inv(t) && t.abortBy.None? && id in t.members && Unfinished(j)
    ensures Undecided(Put(t, id, j))
  {
    assert forall m :: m in t.jobs ==> MemberOk(t.jobs[m], m, None);
  }

  lemma CompletesOk(t: Txn, id: Id, results: map<Id, int>)
    requires Inv(t) && id in t.members && !t.jobs[id].Completed()
             && (MayEnd(t.jobs[id]) || (t.jobs[id].status.Created? && t.jobs[id].forceCancel))
    ensures Inv(Completes(t, id, results))
  {
    assert MemberOk(t.jobs[id], id, t.abortBy);
    var j := t.jobs[id].Assert(!t.jobs[id].Completed()).UpdateRc();
    if t.abortBy.Some? {
      PutOk(t, id, j);
    } else if j.ret != 0 {
      PutUndecided(t, id, j);
      BeginAbortOk(Put(t, id, j), id);
    } else {
      PutOk(t, id, j);
      CompletedSuccessOk(Put(t, id, j), id, results);
    }
  }

  lemma CancelsOk(t: Txn, id: Id, force: bool, results: map<Id, int>)
    requires Inv(t) && Enabled(t, Move(id, Cancel(force, results)))
    ensures Inv(Cancels(t, id, force, results))
  {
    assert id in t.members;
    assert MemberOk(t.jobs[id], id, t.abortBy);
    var j := t.jobs[id].CancelAsync(force);
    if j.Completed() && j.Doomed() && t.abortBy.None? {
      PutUndecided(t, id, j);
      BeginAbortOk(Put(t, id, j), id);
    } else {
      PutOk(t, id, j);
      if !j.started {
        CompletesOk(Put(t, id, j), id, results);
      } else if j.deferred && j.forceCancel && t.abortBy.None? {
        PutUndecided(t, id, j);
        BeginAbortOk(Put(t, id, j), id);
      }
    }
  }

  lemma FinalizeOneOk(t: Txn, id: Id)
    requires Inv(t) && t.abortBy.Some? && id in t.members && t.jobs[id].Completed()
    ensures Inv(FinalizeOne(t, id))
  {
    WithoutList(t.members, id);
    assert MemberOk(t.jobs[id], id, t.abortBy);
  }

  lemma ApplyKeeps(t: Txn, m: Move)
    requires Inv(t) && Enabled(t, m)
    ensures Inv(Apply(t, m))
  {
    var j := t.jobs[m.id];
    assert if m.id in t.members then MemberOk(j, m.id, t.abortBy) else GoneOk(j, m.id, t.abortBy);
    match m.action {
      case Exit(results) => CompletesOk(t, m.id, results);
      case Cancel(force, results) => CancelsOk(t, m.id, force, results);
      case Finalize(results) =>
        assert forall k :: k in t.members ==> MemberOk(t.jobs[k], k, None);
        DoFinalizeOk(t, m.id, results);
      case AbortNext => FinalizeOneOk(t, m.id);
      case _ => PutOk(t, m.id, Apply(t, m).jobs[m.id]);
    }
  }

  // ---- runs ----

  ghost predicate Legal(t: Txn, moves: seq<Move>)
    decreases |moves|
  {
    moves == [] || (Enabled(t, moves[0]) && (forall k :: k in t.members ==> k in t.jobs)
        && Legal(Apply(t, moves[0]), moves[1..]))
  }

  ghost function After(t: Txn, moves: seq<Move>): Txn
    requires Legal(t, moves)
    decreases |moves|
  {
    if moves == [] then t else After(Apply(t, moves[0]), moves[1..])
  }

  ghost predicate New(t: Txn) {
    && t.abortBy.None? && Listed(t.jobs, t.members) && (forall id :: id in t.jobs ==> id in t.members)
    && (forall id :: id in t.jobs ==>
          t.jobs[id]
          == Job(Created, 0, false, false, false, false, t.jobs[id].autoFinalize, t.jobs[id].autoDismiss, 0, 0, true))
  }

  lemma {:induction false} LegalKeeps(t: Txn, moves: seq<Move>)
    requires Inv(t) && Legal(t, moves)
    ensures Inv(After(t, moves))
    decreases |moves|
  {
    if moves != [] {
      ApplyKeeps(t, moves[0]);
      LegalKeeps(Apply(t, moves[0]), moves[1..]);
    }
  }

  /** In every run: no assertion fails; jobs are PENDING only together, completed without error, unless the transaction
      aborts; a job that has left has run exactly one of commit and abort, one that has not, neither. */
  lemma RunOutcome(t: Txn, moves: seq<Move>, id: Id, b: Id)
    requires New(t) && Legal(t, moves)
    ensures Inv(After(t, moves))
    ensures var u := After(t, moves);
            && (id in u.jobs ==>
                  u.jobs[id].ok
                  && u.jobs[id].commits + u.jobs[id].aborts == if id in u.members then 0 else 1)
            && (id in u.jobs ==> (id !in u.members <==> u.jobs[id].status.Concluded? || u.jobs[id].status.Null?))
            && (id in u.members && b in u.members && u.abortBy.None? && u.jobs[id].status.Pending? ==>
                  u.jobs[b].status.Pending? && u.jobs[b].ret == 0)
  {
    LegalKeeps(t, moves);
    var u := After(t, moves);
    assert id in u.members ==> MemberOk(u.jobs[id], id, u.abortBy);
    assert b in u.members ==> MemberOk(u.jobs[b], b, u.abortBy);
  }

  lemma {:induction false} PrepareAllStays(jobs: JobMap, list: seq<Id>, results: map<Id, int>, id: Id)
    requires (forall m :: m in list ==> m in jobs) && id in jobs && jobs[id].Completed()
    ensures id in PrepareAll(jobs, list, results).0 && PrepareAll(jobs, list, results).0[id].Completed()
  {
    if list != [] {
      var j := jobs[list[0]].Prepared(Lookup(results, list[0]));
      if j.ret == 0 {
        PrepareAllStays(jobs[list[0] := j], list[1..], results, id);
      }
    }
  }

  lemma DoFinalizeStays(t: Txn, f: Id, results: map<Id, int>, id: Id)
    requires f in t.jobs && (forall m :: m in t.members ==> m in t.jobs) && id in t.jobs && t.jobs[id].Completed()
    ensures var t' := DoFinalize(t, f, results); id in t'.jobs && t'.jobs[id].Completed()
  {
    PrepareAllStays(t.jobs, t.members, results, id);
  }

  /** A completed job never becomes uncompleted. */
  lemma CompletedStays(t: Txn, m: Move, id: Id)
    requires Inv(t) && Enabled(t, m) && id in t.jobs && t.jobs[id].Completed()
    ensures id in Apply(t, m).jobs && Apply(t, m).jobs[id].Completed()
  {
    var j := t.jobs[m.id];
    match m.action {
      case Exit(results) => CompletesStays(t, m.id, results, id);
      case Cancel(force, results) =>
        if !j.started {
          CompletesStays(Put(t, m.id, j.CancelAsync(force)), m.id, results, id);
        }
      case Finalize(results) => DoFinalizeStays(t, m.id, results, id);
      case _ =>
    }
  }

  lemma CompletesStays(t: Txn, c: Id, results: map<Id, int>, id: Id)
    requires c in t.jobs && (forall m :: m in t.members ==> m in t.jobs) && id in t.jobs && t.jobs[id].Completed()
    ensures var t' := Completes(t, c, results); id in t'.jobs && t'.jobs[id].Completed()
  {
    var j := t.jobs[c].Assert(!t.jobs[c].Completed()).UpdateRc();
    if j.ret == 0 {
      var w := t.(jobs := t.jobs[c := j][c := j.To(Waiting)]);
      if AllCompleted(w.jobs, w.members) {
        DoFinalizeStays(w.(jobs := AllPending(w.jobs, w.members)), c, results, id);
      }
    }
  }

  /** Once a transaction aborts, every job in it aborts; only the job that began it commits, and it does so
      exactly if it had neither failed nor been force-cancelled. */
  lemma {:induction false} AbortOutcome(t: Txn, moves: seq<Move>, id: Id)
    requires Inv(t) && t.abortBy.Some? && Legal(t, moves) && id in After(t, moves).jobs
             && id !in After(t, moves).members
    ensures var j := After(t, moves).jobs[id];
            if id == t.abortBy.value.initiator && !t.abortBy.value.doomed then j.commits == 1 && j.aborts == 0
            else j.commits == 0 && j.aborts == 1
    decreases |moves|
  {
    if moves == [] {
      assert GoneOk(t.jobs[id], id, t.abortBy);
    } else {
      ApplyKeeps(t, moves[0]);
      AbortStays(t, moves[0]);
      AbortOutcome(Apply(t, moves[0]), moves[1..], id);
    }
  }

  lemma AbortStays(t: Txn, m: Move)
    requires Inv(t) && t.abortBy.Some? && Enabled(t, m)
    ensures Apply(t, m).abortBy == t.abortBy
  {
    var j := t.jobs[m.id];
    assert m.id in t.members ==> MemberOk(j, m.id, t.abortBy);
  }

  function FirstFailing(list: seq<Id>, results: map<Id, int>): Option<Id> {
    if list == [] then None else if list[0] in results
        && results[list[0]] != 0 then Some(list[0]) else FirstFailing(list[1..], results)
  }

  lemma {:induction false} PrepareFails(jobs: JobMap, list: seq<Id>, results: map<Id, int>, id: Id)
    requires Listed(jobs, list) && (forall m :: m in list ==> ReadyToCommit(jobs[m])) && id in jobs
             && !jobs[id].Doomed()
    ensures var (jobs', ok) := PrepareAll(jobs, list, results);
            && id in jobs' && (ok <==> FirstFailing(list, results).None?)
            && (jobs'[id].Doomed() <==> FirstFailing(list, results) == Some(id))
  {
    if list != [] {
      var j := jobs[list[0]].Prepared(Lookup(results, list[0]));
      if j.ret == 0 {
        PrepareFails(jobs[list[0] := j], list[1..], results, id);
      }
    }
  }

  /** What finalizing at the instance of `id` leads to: all jobs commit if none fails to prepare. Otherwise the
      transaction aborts, with `id` as the one that begins it, which is doomed only if it is itself the first that
      failed. */
  ghost predicate FinalizedBy(u: Txn, members: seq<Id>, id: Id, results: map<Id, int>) {
    match FirstFailing(members, results)
    case None =>
      u.members == [] && u.abortBy.None? && forall m :: m in u.jobs ==> u.jobs[m].commits == 1 && u.jobs[m].aborts == 0
    case Some(f) => u.abortBy == Some(Begun(id, f == id))
  }

  lemma DoFinalizeOutcome(t: Txn, id: Id, results: map<Id, int>)
    requires Undecided(t) && id in t.jobs && forall m :: m in t.members ==> ReadyToCommit(t.jobs[m])
    ensures FinalizedBy(DoFinalize(t, id, results), t.members, id, results)
  {
    PrepareFails(t.jobs, t.members, results, id);
    DoFinalizeOk(t, id, results);
    var u := DoFinalize(t, id, results);
    if FirstFailing(t.members, results).None? {
      assert forall m :: m in u.jobs ==> GoneOk(u.jobs[m], m, None);
    }
  }

  /** Finalizing on request */
  lemma FinalizeOutcome(t: Txn, id: Id, results: map<Id, int>)
    requires Inv(t) && Enabled(t, Move(id, Finalize(results)))
    ensures FinalizedBy(Apply(t, Move(id, Finalize(results))), t.members, id, results)
  {
    assert forall k :: k in t.members ==> MemberOk(t.jobs[k], k, None);
    DoFinalizeOutcome(t, id, results);
  }

  ghost predicate OthersDone(t: Txn, id: Id) {
    forall m :: m in t.members && m != id ==> m in t.jobs && t.jobs[m].Completed()
  }

  /** A job that comes to its end begins an abort if it has failed, waits if others have not got there, and takes all to
      PENDING if it is the last one; then they are finalized at its instance if none of them wants to be asked. */
  ghost predicate ExitedAs(t: Txn, id: Id, results: map<Id, int>, u: Txn)
    requires id in t.jobs
  {
    if t.jobs[id].Doomed() then u.abortBy == Some(Begun(id, true))
    else if !OthersDone(t, id) then u == Put(t, id, t.jobs[id].To(Waiting))
    else if !AllAuto(t) then
      && u.abortBy.None? && u.members == t.members
      && forall m :: m in u.members ==> m in u.jobs && u.jobs[m].status.Pending?
    else FinalizedBy(u, t.members, id, results)
  }

  lemma ExitOutcome(t: Txn, id: Id, results: map<Id, int>)
    requires Inv(t) && t.abortBy.None? && Enabled(t, Move(id, Exit(results)))
    ensures ExitedAs(t, id, results, Apply(t, Move(id, Exit(results))))
  {
    assert id in t.members;
    assert MemberOk(t.jobs[id], id, None);
    var j := t.jobs[id].Assert(!t.jobs[id].Completed()).UpdateRc();
    if j.ret == 0 {
      assert j == t.jobs[id];
      assert t.jobs[id := j] == t.jobs;
      SuccessOutcome(t, id, results);
    }
  }

  lemma LastOutcome(w: Txn, id: Id, results: map<Id, int>)
    requires Undecided(w) && id in w.jobs
    requires forall m :: m in w.jobs ==> m in w.members && MemberOk(w.jobs[m], m, None) && w.jobs[m].status.Waiting?
    ensures var p := w.(jobs := AllPending(w.jobs, w.members));
            && (forall m :: m in p.members ==> m in p.jobs && p.jobs[m].status.Pending?) && (AllAuto(p) <==> AllAuto(w))
            && FinalizedBy(DoFinalize(p, id, results), p.members, id, results)
  {
    AllPendingOk(w.jobs, w.members);
    DoFinalizeOutcome(w.(jobs := AllPending(w.jobs, w.members)), id, results);
  }

  lemma SuccessOutcome(t: Txn, id: Id, results: map<Id, int>)
    requires Inv(t) && t.abortBy.None? && id in t.members && MayEnd(t.jobs[id]) && !t.jobs[id].Doomed()
    ensures ExitedAs(t, id, results, CompletedSuccess(t, id, results))
  {
    WaitingOk(t, id);
    var w := Put(t, id, t.jobs[id].To(Waiting));
    assert AllCompleted(w.jobs, w.members) <==> OthersDone(t, id);
    assert AllAuto(w) <==> AllAuto(t);
    if AllCompleted(w.jobs, w.members) {
      assert forall m :: m in w.jobs ==> MemberOk(w.jobs[m], m, None);
      LastOutcome(w, id, results);
    }
  }

  // ---- what failing, being cancelled and neither lead to ----

  /** Job `id` has failed or been force-cancelled, and no abort has begun that would let a job commit. */
  ghost predicate Sealed(t: Txn, id: Id) {
    && Inv(t) && id in t.jobs
    && (if t.abortBy.Some? then t.abortBy.value.doomed else id in t.members && t.jobs[id].Doomed())
  }

  lemma CompletesSealed(t: Txn, c: Id, results: map<Id, int>, id: Id)
    requires Inv(t) && id in t.members && t.abortBy.None? && t.jobs[id].Doomed() && c in t.members
    requires MayEnd(t.jobs[c]) || (t.jobs[c].status.Created? && t.jobs[c].forceCancel)
    ensures Sealed(Completes(t, c, results), id)
  {
    assert MemberOk(t.jobs[id], id, None) && MemberOk(t.jobs[c], c, None);
    CompletesOk(t, c, results);
    if !t.jobs[c].Doomed() {
      var w := t.(jobs := t.jobs[c := t.jobs[c]][c := t.jobs[c].To(Waiting)]);
      assert !w.jobs[id].Completed();
    }
  }

  lemma CancelsSealed(t: Txn, c: Id, force: bool, results: map<Id, int>, id: Id)
    requires Sealed(t, id) && t.abortBy.None? && Enabled(t, Move(c, Cancel(force, results)))
    ensures Sealed(Cancels(t, c, force, results), id)
  {
    var j := t.jobs[c];
    assert c in t.members && MemberOk(j, c, None);
    CancelsOk(t, c, force, results);
    if !j.started {
      PutOk(t, c, j.CancelAsync(force));
      CompletesSealed(Put(t, c, j.CancelAsync(force)), c, results, id);
    }
  }

  /** Jobs that have failed or been cancelled by force are not pending. */
  lemma SealedNotPending(t: Txn, id: Id, c: Id)
    requires Sealed(t, id) && t.abortBy.None? && c in t.jobs
    ensures c in t.members && !t.jobs[c].status.Pending? && !t.jobs[c].status.Concluded?
  {
    assert MemberOk(t.jobs[id], id, None) && MemberOk(t.jobs[c], c, None);
  }

  lemma ApplySealed(t: Txn, m: Move, id: Id)
    requires Sealed(t, id) && Enabled(t, m)
    ensures Sealed(Apply(t, m), id)
  {
    if t.abortBy.Some? {
      ApplyKeeps(t, m);
      AbortStays(t, m);
    } else {
      SealedNotPending(t, id, m.id);
      match m.action {
        case Exit(results) => CompletesSealed(t, m.id, results, id);
        case Cancel(force, results) => CancelsSealed(t, m.id, force, results, id);
        case _ => ApplyKeeps(t, m);
      }
    }
  }

  lemma {:induction false} SealedOutcome(t: Txn, moves: seq<Move>, id: Id)
    requires Sealed(t, id) && Legal(t, moves)
    ensures Sealed(After(t, moves), id)
    decreases |moves|
  {
    if moves != [] {
      ApplySealed(t, moves[0], id);
      SealedOutcome(Apply(t, moves[0]), moves[1..], id);
    }
  }

  /** Once job `id` has left, an abort has begun, and whoever has left, `id` included, has aborted and not committed. */
  ghost predicate AbortsAll(u: Txn, id: Id) {
    id in u.jobs && (id !in u.members ==> u.abortBy.Some?)
    && (u.abortBy.Some? ==>
          forall b :: b in u.jobs && b !in u.members ==> u.jobs[b].aborts == 1 && u.jobs[b].commits == 0)
  }

  lemma SealedAborts(t: Txn, moves: seq<Move>, id: Id)
    requires Sealed(t, id) && Legal(t, moves)
    ensures AbortsAll(After(t, moves), id)
  {
    SealedOutcome(t, moves, id);
    var u := After(t, moves);
    forall b | b in u.jobs && b !in u.members && u.abortBy.Some?
      ensures u.jobs[b].aborts == 1 && u.jobs[b].commits == 0
    {
      assert GoneOk(u.jobs[b], b, u.abortBy);
    }
  }

  /** A job that has been cancelled by force never commits, and neither does any other job of its transaction. */
  lemma CancelOutcome(t: Txn, id: Id, results: map<Id, int>, moves: seq<Move>)
    requires Inv(t) && Enabled(t, Move(id, Cancel(true, results)))
    requires Legal(Apply(t, Move(id, Cancel(true, results))), moves)
    ensures AbortsAll(After(Apply(t, Move(id, Cancel(true, results))), moves), id)
  {
    CancelSeals(t, id, results);
    SealedAborts(Apply(t, Move(id, Cancel(true, results))), moves, id);
  }

  lemma CancelSeals(t: Txn, id: Id, results: map<Id, int>)
    requires Inv(t) && Enabled(t, Move(id, Cancel(true, results)))
    ensures Sealed(Apply(t, Move(id, Cancel(true, results))), id)
  {
    ApplyKeeps(t, Move(id, Cancel(true, results)));
    NotAborted(t, id);
    if t.abortBy.Some? {
      AbortStays(t, Move(id, Cancel(true, results)));
    } else if !t.jobs[id].started {
      PutUndecided(t, id, t.jobs[id].CancelAsync(true));
    }
  }

  /** While the abort loop runs to let a job commit, no job can be cancelled or return. */
  lemma NotAborted(t: Txn, id: Id)
    requires Inv(t) && id in t.jobs && !AbortRuns(t) && !t.jobs[id].status.Concluded? && !t.jobs[id].status.Null?
    ensures id in t.members && (t.abortBy.Some? ==> t.abortBy.value.doomed)
  {
    assert id in t.members;
    assert MemberOk(t.jobs[t.members[0]], t.members[0], t.abortBy);
  }

  /** A job whose driver has returned an error never commits, and neither does any other job of its transaction. */
  lemma FailureOutcome(t: Txn, id: Id, error: int, moves: seq<Move>)
    requires Inv(t) && Enabled(t, Move(id, Return(error))) && error != 0
    requires Legal(Apply(t, Move(id, Return(error))), moves)
    ensures AbortsAll(After(Apply(t, Move(id, Return(error))), moves), id)
  {
    ApplyKeeps(t, Move(id, Return(error)));
    assert id in t.members;
    assert MemberOk(t.jobs[id], id, t.abortBy);
    SealedAborts(Apply(t, Move(id, Return(error))), moves, id);
  }

  /** A cancel that is not forced only leaves a mark, which the driver may act on. */
  lemma SoftCancelOutcome(t: Txn, id: Id, results: map<Id, int>)
    requires Inv(t) && Enabled(t, Move(id, Cancel(false, results))) && !t.jobs[id].forceCancel
    ensures var j := t.jobs[id];
            Apply(t, Move(id, Cancel(false, results))) == Put(t, id, j.(cancelled := j.cancelled || !j.deferred))
  {
    assert id in t.members;
    assert MemberOk(t.jobs[id], id, t.abortBy);
  }

  /** Nothing fails and nobody is cancelled by force. */
  ghost predicate Peaceful(m: Move) {
    match m.action
    case Return(ret) => ret == 0
    case Exit(results) => forall id :: id in results ==> results[id] == 0
    case Cancel(force, _) => !force
    case Finalize(results) => forall id :: id in results ==> results[id] == 0
    case _ => true
  }

  ghost predicate NoneDoomed(t: Txn) {
    t.abortBy.None? && forall id :: id in t.jobs ==> !t.jobs[id].Doomed()
  }

  lemma {:induction false} NoneFailing(list: seq<Id>, results: map<Id, int>)
    requires forall id :: id in results ==> results[id] == 0
    ensures FirstFailing(list, results).None?
  {
    if list != [] {
      NoneFailing(list[1..], results);
    }
  }

  lemma DoFinalizeUnharmed(t: Txn, id: Id, results: map<Id, int>)
    requires Undecided(t) && id in t.jobs && forall m :: m in t.members ==> ReadyToCommit(t.jobs[m])
    requires forall m :: m in results ==> results[m] == 0
    ensures NoneDoomed(DoFinalize(t, id, results))
  {
    NoneFailing(t.members, results);
    PrepareAllOk(t.jobs, t.members, results);
    PrepareFails(t.jobs, t.members, results, id);
  }

  lemma LastUnharmed(w: Txn, id: Id, results: map<Id, int>)
    requires Undecided(w) && id in w.jobs && forall m :: m in results ==> results[m] == 0
    requires forall m :: m in w.jobs ==> m in w.members && MemberOk(w.jobs[m], m, None) && w.jobs[m].status.Waiting?
    ensures var p := w.(jobs := AllPending(w.jobs, w.members)); NoneDoomed(p) && NoneDoomed(DoFinalize(p, id, results))
  {
    AllPendingOk(w.jobs, w.members);
    DoFinalizeUnharmed(w.(jobs := AllPending(w.jobs, w.members)), id, results);
  }

  lemma SuccessUnharmed(t: Txn, id: Id, results: map<Id, int>)
    requires Inv(t) && NoneDoomed(t) && id in t.members && MayEnd(t.jobs[id])
    requires forall m :: m in results ==> results[m] == 0
    ensures NoneDoomed(CompletedSuccess(t, id, results))
  {
    WaitingOk(t, id);
    var w := Put(t, id, t.jobs[id].To(Waiting));
    if AllCompleted(w.jobs, w.members) {
      assert forall m :: m in w.jobs ==> MemberOk(w.jobs[m], m, None);
      LastUnharmed(w, id, results);
    }
  }

  lemma ExitUnharmed(t: Txn, id: Id, results: map<Id, int>)
    requires Inv(t) && NoneDoomed(t) && id in t.members && MayEnd(t.jobs[id])
    requires forall m :: m in results ==> results[m] == 0
    ensures NoneDoomed(Completes(t, id, results))
  {
    assert MemberOk(t.jobs[id], id, None);
    assert t.jobs[id := t.jobs[id]] == t.jobs;
    SuccessUnharmed(t, id, results);
  }

  lemma ApplyUnharmed(t: Txn, m: Move)
    requires Inv(t) && NoneDoomed(t) && Enabled(t, m) && Peaceful(m)
    ensures NoneDoomed(Apply(t, m))
  {
    match m.action {
      case Exit(results) =>
        assert m.id in t.members;
        ExitUnharmed(t, m.id, results);
      case Cancel(_, results) =>
        SoftCancelOutcome(t, m.id, results);
      case Finalize(results) =>
        assert forall k :: k in t.members ==> MemberOk(t.jobs[k], k, None);
        DoFinalizeUnharmed(t, m.id, results);
      case _ =>
    }
  }

  /** If nothing fails and nobody is cancelled by force, no transaction aborts, and whoever has left has committed. */
  lemma {:induction false} PeacefulOutcome(t: Txn, moves: seq<Move>, id: Id)
    requires Inv(t) && NoneDoomed(t) && Legal(t, moves) && forall m :: m in moves ==> Peaceful(m)
    ensures var u := After(t, moves);
            u.abortBy.None? && (id in u.jobs && id !in u.members ==> u.jobs[id].commits == 1 && u.jobs[id].aborts == 0)
    decreases |moves|
  {
    if moves == [] {
      assert id in t.jobs && id !in t.members ==> GoneOk(t.jobs[id], id, None);
    } else {
      ApplyKeeps(t, moves[0]);
      ApplyUnharmed(t, moves[0]);
      PeacefulOutcome(Apply(t, moves[0]), moves[1..], id);
    }
  }

  // ---- no transaction gets stuck ----

  /** All jobs wait for each other. */
  ghost predicate Stuck(t: Txn) {
    t.abortBy.None? && t.members != [] && forall m :: m in t.members ==> m in t.jobs && t.jobs[m].status.Waiting?
  }

  lemma FinalizedNotStuck(u: Txn, members: seq<Id>, id: Id, results: map<Id, int>)
    requires FinalizedBy(u, members, id, results)
    ensures !Stuck(u)
  {
  }

  lemma ExitNotStuck(t: Txn, id: Id, results: map<Id, int>)
    requires Inv(t) && t.abortBy.None? && Enabled(t, Move(id, Exit(results)))
    ensures !Stuck(Apply(t, Move(id, Exit(results))))
  {
    ExitOutcome(t, id, results);
    var u := Apply(t, Move(id, Exit(results)));
    assert id in t.members;
    if !t.jobs[id].Doomed() {
      if !OthersDone(t, id) {
        var m :| m in t.members && m != id && !t.jobs[m].Completed();
        assert m in u.members && !u.jobs[m].status.Waiting?;
      } else if !AllAuto(t) {
        assert u.jobs[id].status.Pending?;
      } else {
        FinalizedNotStuck(u, t.members, id, results);
      }
    }
  }

  lemma CancelNotStuck(t: Txn, id: Id, force: bool, results: map<Id, int>)
    requires Inv(t) && t.abortBy.None? && !Stuck(t) && Enabled(t, Move(id, Cancel(force, results)))
    ensures !Stuck(Apply(t, Move(id, Cancel(force, results))))
  {
    assert id in t.members;
    assert MemberOk(t.jobs[id], id, None);
    var m :| m in t.members && !t.jobs[m].status.Waiting?;
    var u := Apply(t, Move(id, Cancel(force, results)));
    if u.abortBy.None? {
      assert u == Put(t, id, t.jobs[id].CancelAsync(force));
      assert m in u.members && !u.jobs[m].status.Waiting?;
    }
  }

  lemma ApplyNotStuck(t: Txn, m: Move)
    requires Inv(t) && !Stuck(t) && Enabled(t, m)
    ensures !Stuck(Apply(t, m))
  {
    if t.abortBy.Some? {
      AbortStays(t, m);
    } else {
      match m.action {
        case Exit(results) => ExitNotStuck(t, m.id, results);
        case Cancel(force, results) => CancelNotStuck(t, m.id, force, results);
        case Finalize(results) =>
          FinalizeOutcome(t, m.id, results);
          FinalizedNotStuck(Apply(t, m), t.members, m.id, results);
        case _ => PutNotStuck(t, m);
      }
    }
  }

  lemma PutNotStuck(t: Txn, m: Move)
    requires Inv(t) && !Stuck(t) && t.abortBy.None? && Enabled(t, m)
    requires !m.action.Exit? && !m.action.Cancel? && !m.action.Finalize?
    ensures !Stuck(Apply(t, m))
  {
    var u := Apply(t, m);
    if t.members != [] {
      var k :| k in t.members && !t.jobs[k].status.Waiting?;
      assert !u.jobs[k].status.Waiting?;
    }
  }

  lemma {:induction false} LegalNotStuck(t: Txn, moves: seq<Move>)
    requires Inv(t) && !Stuck(t) && Legal(t, moves)
    ensures Inv(After(t, moves)) && !Stuck(After(t, moves))
    decreases |moves|
  {
    if moves != [] {
      ApplyKeeps(t, moves[0]);
      ApplyNotStuck(t, moves[0]);
      LegalNotStuck(Apply(t, moves[0]), moves[1..]);
    }
  }

  /** What a job does next by itself, or is asked to do when it is pending */
  function NextOf(t: Txn, id: Id): Move
    requires id in t.jobs
  {
    Move(id,
      match t.jobs[id].status
      case Created => Start
      case Paused => Resume
      case Standby => Resume
      case Pending => Finalize(map[])
      case _ => if t.jobs[id].deferred then Exit(map[]) else Return(0))
  }

  /** In every run, as long as a transaction has jobs one of them can go on, or the abort loop can. */
  lemma SomebodyMoves(t: Txn, moves: seq<Move>) returns (m: Move)
    requires New(t) && Legal(t, moves) && After(t, moves).members != []
    ensures Enabled(After(t, moves), m) && !m.action.Cancel?
  {
    var u := After(t, moves);
    NewNotStuck(t);
    LegalNotStuck(t, moves);
    var first := u.members[0];
    assert MemberOk(u.jobs[first], first, u.abortBy);
    if AbortRuns(u) {
      m := Move(first, AbortNext);
    } else if u.abortBy.Some? {
      m := NextOf(u, first);
    } else {
      var k :| k in u.members && !u.jobs[k].status.Waiting?;
      assert MemberOk(u.jobs[k], k, None);
      m := NextOf(u, k);
    }
  }

  lemma NewNotStuck(t: Txn)
    requires New(t)
    ensures Inv(t) && !Stuck(t)
  {
    assert forall id :: id in t.members ==> id in t.jobs && t.jobs[id].status.Created?;
    if t.members != [] {
      assert t.members[0] in t.members;
    }
  }

  /** Any job that has not come to its end can be cancelled by force, unless the abort loop is at work. */
  lemma CancelAllowed(t: Txn, id: Id, results: map<Id, int>)
    requires Inv(t) && id in t.members && !t.jobs[id].status.Aborting? && !AbortRuns(t)
    ensures Enabled(t, Move(id, Cancel(true, results)))
  {
    assert MemberOk(t.jobs[id], id, t.abortBy);
  }

  // ---- a run with a split outcome ----

  lemma Regroup(a: seq<Move>, b: seq<Move>)
    ensures if a == [] then a + b == b else a + b != [] && (a + b)[0] == a[0] && (a + b)[1..] == a[1..] + b
  {
  }

  lemma {:induction false} Then(t: Txn, a: seq<Move>, b: seq<Move>)
    requires Legal(t, a) && Legal(After(t, a), b)
    ensures Legal(t, a + b) && After(t, a + b) == After(After(t, a), b)
    decreases |a|
  {
    Regroup(a, b);
    if a != [] {
      Then(Apply(t, a[0]), a[1..], b);
    }
  }

  /** A run goes on with one more move. */
  lemma Goes(t: Txn, moves: seq<Move>, u: Txn, m: Move, v: Txn)
    requires Legal(t, moves) && After(t, moves) == u && (forall k :: k in u.members ==> k in u.jobs) && Enabled(u, m)
             && Apply(u, m) == v
    ensures Legal(t, moves + [m]) && After(t, moves + [m]) == v
  {
    assert [m][1..] == [];
    assert Legal(v, []);
    Then(t, moves, [m]);
  }

  /** A transaction of two jobs */
  function Two(a: Job, b: Job): Txn {
    Txn(map[0 := a, 1 := b], [0, 1], None)
  }

  lemma PutTwo(a: Job, b: Job, j: Job)
    ensures Put(Two(a, b), 0, j) == Two(j, b) && Put(Two(a, b), 1, j) == Two(a, j)
  {
  }

  /** A job that has got as far as `status` without error */
  function At(status: Status): Job {
    var running := status.Running?;
    Job(status, 0, false, false, !status.Created?, !status.Created? && !running, false, false, 0, 0, true)
  }

  lemma NewTwo()
    ensures New(Two(At(Created), At(Created)))
  {
    NoDupCons(1, []);
    NoDupCons(0, [1]);
    assert [0] + [1] == [0, 1];
  }

  lemma BothStart() returns (moves: seq<Move>)
    ensures Legal(Two(At(Created), At(Created)), moves)
            && After(Two(At(Created), At(Created)), moves) == Two(At(Running), At(Running))
  {
    var (c, r) := (At(Created), At(Running));
    var t := Two(c, c);
    PutTwo(c, c, r);
    Goes(t, [], t, Move(0, Start), Two(r, c));
    PutTwo(r, c, r);
    Goes(t, [] + [Move(0, Start)], Two(r, c), Move(1, Start), Two(r, r));
    moves := [] + [Move(0, Start)] + [Move(1, Start)];
  }

  /** A job whose driver has returned 0 */
  function Returned(): Job {
    At(Running).(deferred := true)
  }

  lemma BothReturn(t: Txn, moves: seq<Move>) returns (moves': seq<Move>)
    requires Legal(t, moves) && After(t, moves) == Two(At(Running), At(Running))
    ensures Legal(t, moves') && After(t, moves') == Two(Returned(), Returned())
  {
    var (r, d) := (At(Running), Returned());
    PutTwo(r, r, d);
    Goes(t, moves, Two(r, r), Move(0, Return(0)), Two(d, r));
    PutTwo(d, r, d);
    Goes(t, moves + [Move(0, Return(0))], Two(d, r), Move(1, Return(0)), Two(d, d));
    moves' := moves + [Move(0, Return(0))] + [Move(1, Return(0))];
  }

  lemma FirstExits()
    ensures Enabled(Two(Returned(), Returned()), Move(0, Exit(map[])))
    ensures Apply(Two(Returned(), Returned()), Move(0, Exit(map[]))) == Two(At(Waiting), Returned())
  {
    var d := Returned();
    PutTwo(d, d, d);
    PutTwo(d, d, At(Waiting));
    var w := Two(At(Waiting), d);
    assert w.members[1] in w.members && !w.jobs[1].Completed();
  }

  lemma BothWaiting()
    ensures var u := Two(At(Waiting), At(Waiting));
            && AllCompleted(u.jobs, u.members)
            && AllPending(u.jobs, u.members) == Two(At(Pending), At(Pending)).jobs
  {
  }

  lemma SecondExits()
    ensures Enabled(Two(At(Waiting), Returned()), Move(1, Exit(map[])))
    ensures Apply(Two(At(Waiting), Returned()), Move(1, Exit(map[]))) == Two(At(Pending), At(Pending))
  {
    var (w, d) := (At(Waiting), Returned());
    BothWaiting();
    PutTwo(w, d, d);
    PutTwo(w, d, w);
    var p := Two(At(Pending), At(Pending));
    assert p.members[0] in p.members && !p.jobs[0].autoFinalize;
    assert CompletedSuccess(Two(w, d), 1, map[]) == p;
  }

  /** A pending job that has failed to prepare and has been cancelled */
  function Failed(error: int): Job {
    At(Pending).(status := Aborting, ret := error, cancelled := true, forceCancel := true)
  }

  function Split(error: int): Txn {
    Two(At(Pending), Failed(error)).(abortBy := Some(Begun(0, false)))
  }

  lemma FinalizeSplits(error: int)
    requires error != 0
    ensures Enabled(Two(At(Pending), At(Pending)), Move(0, Finalize(map[1 := error])))
    ensures Apply(Two(At(Pending), At(Pending)), Move(0, Finalize(map[1 := error]))) == Split(error)
  {
    var p := At(Pending);
    var f := p.(status := Aborting, ret := error);
    assert PrepareAll(Two(p, f).jobs, [], map[1 := error]).1;
    assert [0, 1][1..] == [1];
    assert Two(p, p).jobs[0 := p] == Two(p, p).jobs && Two(p, p).jobs[1 := f] == Two(p, f).jobs;
    assert PrepareAll(Two(p, p).jobs, [1], map[1 := error]) == (Two(p, f).jobs, false);
    assert PrepareAll(Two(p, p).jobs, [0, 1], map[1 := error]) == (Two(p, f).jobs, false);
    assert CancelOthers(Two(p, f).jobs, [0, 1], 0) == Two(p, Failed(error)).jobs;
  }

  /** The two jobs at the end: the first has committed, the second has aborted. */
  function Ended(error: int): Txn {
    Txn(map[0 := At(Pending).(status := Concluded, commits := 1),
        1 := Failed(error).(status := Concluded, aborts := 1)], [],
        Some(Begun(0, false)))
  }

  lemma AbortRounds(error: int)
    requires error != 0
    ensures Legal(Split(error), [Move(0, AbortNext), Move(1, AbortNext)])
    ensures After(Split(error), [Move(0, AbortNext), Move(1, AbortNext)]) == Ended(error)
  {
    var t := Split(error);
    var u := t.(jobs := t.jobs[0 := t.jobs[0].Finalized()], members := [1]);
    assert Without([0, 1], 0) == [1] && Without([1], 1) == [];
    assert Apply(t, Move(0, AbortNext)) == u;
    assert Apply(u, Move(1, AbortNext)).jobs == Ended(error).jobs;
    Goes(t, [], t, Move(0, AbortNext), u);
    Goes(t, [] + [Move(0, AbortNext)], u, Move(1, AbortNext), Ended(error));
    assert [] + [Move(0, AbortNext)] + [Move(1, AbortNext)] == [Move(0, AbortNext), Move(1, AbortNext)];
  }

  /** Such a run: two jobs run to their ends without error, the second cannot prepare, and the first, which was asked to
      finalize, commits all the same. */
  lemma SplitOutcomeExample(error: int) returns (t: Txn, moves: seq<Move>)
    requires error != 0
    ensures New(t) && t.members == [0, 1] && Legal(t, moves)
    ensures var u := After(t, moves);
            && u.members == [] && 0 in u.jobs && 1 in u.jobs
            && u.jobs[0].commits == 1 && u.jobs[0].aborts == 0 && u.jobs[1].commits == 0 && u.jobs[1].aborts == 1
  {
    t := Two(At(Created), At(Created));
    NewTwo();
    moves := BothStart();
    moves := BothReturn(t, moves);
    FirstExits();
    Goes(t, moves, Two(Returned(), Returned()), Move(0, Exit(map[])), Two(At(Waiting), Returned()));
    moves := moves + [Move(0, Exit(map[]))];
    SecondExits();
    Goes(t, moves, Two(At(Waiting), Returned()), Move(1, Exit(map[])), Two(At(Pending), At(Pending)));
    moves := moves + [Move(1, Exit(map[]))];
    moves := FinalizeAndAbort(t, moves, error);
  }

  lemma FinalizeAndAbort(t: Txn, moves: seq<Move>, error: int) returns (moves': seq<Move>)
    requires error != 0 && Legal(t, moves) && After(t, moves) == Two(At(Pending), At(Pending))
    ensures Legal(t, moves') && After(t, moves') == Ended(error)
  {
    var m := Move(0, Finalize(map[1 := error]));
    FinalizeSplits(error);
    Goes(t, moves, Two(At(Pending), At(Pending)), m, Split(error));
    AbortRounds(error);
    Then(t, moves + [m], [Move(0, AbortNext), Move(1, AbortNext)]);
    moves' := moves + [m] + [Move(0, AbortNext), Move(1, AbortNext)];
  }
}
