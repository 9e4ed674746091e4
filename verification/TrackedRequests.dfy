/** Tracked and serialising requests of one node in one context: every interleaving of coroutines,
    cut at the points where a coroutine waits. */
module TrackedRequests {
  import opened Options
  import opened Dag
  import opened IdLists
  import opened Alignment

  type Id = Node

  /** `start` and `size` are the range that the request guards. */
  datatype Request = Request(offset: int, bytes: nat, serialising: bool, start: int, size: nat,
      waitingFor: Option<Id>) {
    /** `tracked_request_overlaps` */
    predicate Overlaps(offset: int, bytes: nat) {
      !(offset >= start + size) && !(start >= offset + bytes)
    }

    predicate Conflicts(r: Request) {
      (serialising || r.serialising) && Overlaps(r.start, r.size)
    }

    predicate Covers() {
      start <= offset && offset + bytes <= start + size
    }
  }

  /** Ranges overlap exactly if they have a byte in common. */
  lemma OverlapsIff(r: Request, offset: int, bytes: nat)
    requires r.size > 0 && bytes > 0
    ensures r.Overlaps(offset, bytes) <==> exists i :: InRange(i, r.start, r.size) && InRange(i, offset, bytes)
  {
    var i := if r.start < offset then offset else r.start;
    assert r.Overlaps(offset, bytes) ==> InRange(i, r.start, r.size) && InRange(i, offset, bytes);
  }

  predicate InRange(i: int, start: int, size: nat) {
    start <= i < start + size
  }

  /** The tracked requests, newest first, and `serialising_in_flight`. */
  datatype Queue = Queue(list: seq<Id>, reqs: map<Id, Request>, inFlight: int)

  predicate Blocks(reqs: map<Id, Request>, b: Id, self: Id)
    requires b in reqs && self in reqs
  {
    b != self && reqs[b].Conflicts(reqs[self]) && reqs[b].waitingFor.None?
  }

  /** The first request of `list` that conflicts with `self` and does not wait itself. */
  function FirstBlocking(list: seq<Id>, reqs: map<Id, Request>, self: Id): (r: Option<Id>)
    requires (forall b :: b in list ==> b in reqs) && self in reqs
    ensures r.Some? ==> r.value in list && Blocks(reqs, r.value, self)
    ensures r.None? ==> forall b :: b in list ==> !Blocks(reqs, b, self)
  {
    if list == [] then None
    else if Blocks(reqs, list[0], self) then Some(list[0])
    else
      var r := FirstBlocking(list[1..], reqs, self);
      assert forall b :: b in list ==> b == list[0] || b in list[1..];
      r
  }

  lemma FirstBlockingFrom(list: seq<Id>, reqs: map<Id, Request>, self: Id, i: nat)
    requires (forall b :: b in list ==> b in reqs) && self in reqs && i < |list|
    ensures FirstBlocking(list[i..], reqs, self) ==
            if Blocks(reqs, list[i], self) then Some(list[i]) else FirstBlocking(list[i + 1..], reqs, self)
  {
    assert list[i..][1..] == list[i + 1..];
  }

  /** `bdrv_find_conflicting_request` */
  method FindConflicting(q: Queue, self: Id) returns (r: Option<Id>)
    requires (forall b :: b in q.list ==> b in q.reqs) && self in q.reqs
    ensures r == FirstBlocking(q.list, q.reqs, self)
  {
    var i := 0;
    assert q.list[0..] == q.list;
    while i < |q.list|
      invariant 0 <= i <= |q.list|
      invariant FirstBlocking(q.list, q.reqs, self) == FirstBlocking(q.list[i..], q.reqs, self)
    {
      FirstBlockingFrom(q.list, q.reqs, self, i);
      var (b, me) := (q.reqs[q.list[i]], q.reqs[self]);
      if q.list[i] == self || (!b.serialising && !me.serialising) {
      } else if b.Overlaps(me.start, me.size) {
        if b.waitingFor.None? {
          return Some(q.list[i]);
        }
      }
      i := i + 1;
    }
    r := None;
  }

  /** `tracked_request_set_serialising` on one request */
  function Grown(r: Request, align: nat): (g: Request)
    requires align > 0
    ensures r.Covers() ==> g.Covers()
  {
    var start := Down(r.offset, align);
    var size := Up(r.offset + r.bytes, align) - start;
    r.(serialising := true, start := if start < r.start then start else r.start, size := if size > r.size then size
        else r.size)
  }

  /** The range that `Grown` would give a request that guards just its own bytes. */
  predicate GuardsAligned(r: Request, align: nat)
    requires align > 0
  {
    r.start == Down(r.offset, align) && r.start + r.size == Up(r.offset + r.bytes, align)
  }

  /** With alignments that divide one another, as powers of two do, growing never gives up a byte. */
  lemma GrownNests(r: Request, a: nat, b: nat)
    requires a > 0 && b > 0 && (a % b == 0 || b % a == 0) && GuardsAligned(r, a)
    ensures var g := Grown(r, b);
            GuardsAligned(g, if a >= b then a else b) && g.start <= r.start && r.start + r.size <= g.start + g.size
  {
    if b % a == 0 {
      Nests(r.offset, a, b);
      Nests(r.offset + r.bytes, a, b);
    } else {
      Nests(r.offset, b, a);
      Nests(r.offset + r.bytes, b, a);
    }
  }

  // ---- steps ----

  ghost predicate Listed(list: seq<Id>, reqs: map<Id, Request>) {
    NoDup(list) && forall id :: id in list <==> id in reqs
  }

  /** One round of `bdrv_wait_serialising_requests_locked` */
  function Checked(q: Queue, self: Id): Queue
    requires Listed(q.list, q.reqs) && self in q.reqs
  {
    q.(reqs := q.reqs[self := q.reqs[self].(waitingFor := FirstBlocking(q.list, q.reqs, self))])
  }

  /** `bdrv_wait_serialising_requests`, which does not look when nothing is serialising */
  function Waited(q: Queue, self: Id): Queue
    requires Listed(q.list, q.reqs) && self in q.reqs
  {
    if q.inFlight == 0 then q else Checked(q, self)
  }

  /** `tracked_request_begin` */
  function Inserted(q: Queue, id: Id, offset: int, bytes: nat): Queue {
    q.(list := [id] + q.list, reqs := q.reqs[id := Request(offset, bytes, false, offset, bytes, None)])
  }

  /** `tracked_request_set_serialising` */
  function SetSerialising(q: Queue, id: Id, align: nat): Queue
    requires id in q.reqs && align > 0
  {
    q.(reqs := q.reqs[id := Grown(q.reqs[id], align)], inFlight := if q.reqs[id].serialising then q.inFlight
        else q.inFlight + 1)
  }

  /** `tracked_request_end`; those that wait for the request still say so until they run again. */
  function Removed(q: Queue, id: Id): Queue
    requires id in q.reqs
  {
    Queue(Without(q.list, id), q.reqs - {id}, if q.reqs[id].serialising then q.inFlight - 1 else q.inFlight)
  }

  predicate Running(reqs: map<Id, Request>, id: Id) {
    id in reqs && reqs[id].waitingFor.None?
  }

  predicate Fresh(reqs: map<Id, Request>, id: Id) {
    id !in reqs && forall a :: a in reqs ==> reqs[a].waitingFor != Some(id)
  }

  datatype Action =
    | Begin(offset: int, bytes: nat)
    | BeginSerialising(offset: int, bytes: nat, align: nat)
    | Recheck
    | MakeSerialising(align: nat)
    | End
    | Resume

  datatype Move = Move(id: Id, action: Action)

  ghost predicate Enabled(q: Queue, m: Move) {
    match m.action
    case Begin(offset, bytes) => Fresh(q.reqs, m.id)
    case BeginSerialising(offset, bytes, align) => Fresh(q.reqs, m.id) && align > 0
    case Recheck => Running(q.reqs, m.id)
    case MakeSerialising(align) => Running(q.reqs, m.id) && align > 0
    case End => Running(q.reqs, m.id)
    case Resume => m.id in q.reqs && q.reqs[m.id].waitingFor.Some? && q.reqs[m.id].waitingFor.value !in q.reqs
  }

  ghost function Apply(q: Queue, m: Move): Queue
    requires Listed(q.list, q.reqs) && Enabled(q, m)
  {
    match m.action
    case Begin(offset, bytes) =>
      NoDupCons(m.id, q.list);
      Waited(Inserted(q, m.id, offset, bytes), m.id)
    case BeginSerialising(offset, bytes, align) =>
      NoDupCons(m.id, q.list);
      Checked(SetSerialising(Inserted(q, m.id, offset, bytes), m.id, align), m.id)
    case Recheck => Waited(q, m.id)
    case MakeSerialising(align) => Checked(SetSerialising(q, m.id, align), m.id)
    case End => Removed(q, m.id)
    case Resume => Checked(q.(reqs := q.reqs[m.id := q.reqs[m.id].(waitingFor := None)]), m.id)
  }

  /** The moves can be made one after the other. */
  ghost predicate Legal(q: Queue, moves: seq<Move>)
    decreases |moves|
  {
    Listed(q.list, q.reqs) && (moves == [] || (Enabled(q, moves[0]) && Legal(Apply(q, moves[0]), moves[1..])))
  }

  ghost function After(q: Queue, moves: seq<Move>): Queue
    requires Legal(q, moves)
    decreases |moves|
  {
    if moves == [] then q else After(Apply(q, moves[0]), moves[1..])
  }

  const EMPTY := Queue([], map[], 0)

  // ---- the invariant ----

  ghost function WaitRel(reqs: map<Id, Request>): (r: Rel)
    ensures forall a, b :: (a, b) in r <==> a in reqs && reqs[a].waitingFor == Some(b)
  {
    set a | a in reqs && reqs[a].waitingFor.Some? :: (a, reqs[a].waitingFor.value)
  }

  ghost function Serialising(reqs: map<Id, Request>): set<Id> {
    set a | a in reqs && reqs[a].serialising
  }

  predicate OneWaits(a: Request, b: Request) {
    a.Conflicts(b) ==> a.waitingFor.Some? || b.waitingFor.Some?
  }

  /** Of two conflicting requests one waits, leaving pairs with `but` open. */
  ghost predicate GuardedBut(reqs: map<Id, Request>, but: Option<Id>) {
    forall a, b :: a in reqs && b in reqs && a != b && Some(a) != but && Some(b) != but ==> OneWaits(reqs[a], reqs[b])
  }

  ghost predicate CoversAll(reqs: map<Id, Request>) {
    forall a :: a in reqs ==> reqs[a].Covers()
  }

  ghost predicate Inv(q: Queue) {
    && Listed(q.list, q.reqs) && GuardedBut(q.reqs, None) && Acyclic(WaitRel(q.reqs)) && CoversAll(q.reqs)
    && q.inFlight == |Serialising(q.reqs)|
  }

  lemma CheckedGuards(q: Queue, self: Id)
    requires Listed(q.list, q.reqs) && self in q.reqs && GuardedBut(q.reqs, Some(self))
    ensures GuardedBut(Checked(q, self).reqs, None)
  {
    var reqs' := Checked(q, self).reqs;
    forall a, b | a in reqs' && b in reqs' && a != b ensures OneWaits(reqs'[a], reqs'[b]) {
      if a == self && reqs'[self].waitingFor.None? {
        assert !Blocks(q.reqs, b, self);
      } else if b == self && reqs'[self].waitingFor.None? {
        assert !Blocks(q.reqs, a, self);
      }
    }
  }

  /** A request waits only for one that does not wait, so no cycle can form. */
  lemma CheckedAcyclic(q: Queue, self: Id)
    requires Listed(q.list, q.reqs) && Running(q.reqs, self) && Acyclic(WaitRel(q.reqs))
    ensures Acyclic(WaitRel(Checked(q, self).reqs))
  {
    var (r, r', t) := (WaitRel(q.reqs), WaitRel(Checked(q, self).reqs), FirstBlocking(q.list, q.reqs, self));
    if t.Some? {
      assert r' == r + {(self, t.value)};
      if Reach(r, t.value, self) {
        var b := ReachFirst(r, t.value, self);
      }
      AddEdgeAcyclic(r, self, t.value);
    } else {
      assert r' == r;
    }
  }

  lemma WaitRelSame(a: map<Id, Request>, b: map<Id, Request>)
    requires forall x :: x in b && b[x].waitingFor.Some? ==> x in a && a[x].waitingFor == b[x].waitingFor
    ensures Acyclic(WaitRel(a)) ==> Acyclic(WaitRel(b))
  {
    assert WaitRel(b) <= WaitRel(a);
    if Acyclic(WaitRel(a)) {
      AcyclicSubset(WaitRel(b), WaitRel(a));
    }
  }

  /** A request that gets past a check, whatever came before, restores the invariant. */
  lemma CheckedKeeps(q: Queue, self: Id)
    requires Listed(q.list, q.reqs) && Running(q.reqs, self) && GuardedBut(q.reqs, Some(self))
             && Acyclic(WaitRel(q.reqs))
    requires CoversAll(q.reqs) && q.inFlight == |Serialising(q.reqs)|
    ensures Inv(Checked(q, self))
  {
    CheckedGuards(q, self);
    CheckedAcyclic(q, self);
    assert Serialising(Checked(q, self).reqs) == Serialising(q.reqs);
  }

  /** With nothing serialising there is nothing to find. */
  lemma WaitedKeeps(q: Queue, self: Id)
    requires Listed(q.list, q.reqs) && Running(q.reqs, self) && GuardedBut(q.reqs, Some(self))
             && Acyclic(WaitRel(q.reqs))
    requires CoversAll(q.reqs) && q.inFlight == |Serialising(q.reqs)|
    ensures Waited(q, self) == Checked(q, self) && Inv(Waited(q, self))
  {
    CheckedKeeps(q, self);
    if q.inFlight == 0 {
      assert forall a :: a in q.reqs ==> a !in Serialising(q.reqs);
      assert Checked(q, self).reqs[self] == q.reqs[self];
    }
  }

  lemma InsertedOk(q: Queue, id: Id, offset: int, bytes: nat)
    requires Inv(q) && Fresh(q.reqs, id)
    ensures var i := Inserted(q, id, offset, bytes);
            && Listed(i.list, i.reqs) && GuardedBut(i.reqs, Some(id)) && Acyclic(WaitRel(i.reqs)) && CoversAll(i.reqs)
            && i.inFlight == |Serialising(i.reqs)|
  {
    var i := Inserted(q, id, offset, bytes);
    NoDupCons(id, q.list);
    WaitRelSame(q.reqs, i.reqs);
    assert Serialising(i.reqs) == Serialising(q.reqs);
  }

  /** A newcomer waits exactly if a serialising request that runs is in its way. */
  lemma BeginWaitsIff(q: Queue, id: Id, offset: int, bytes: nat)
    requires Inv(q) && Fresh(q.reqs, id)
    ensures var r := Apply(q, Move(id, Begin(offset, bytes))).reqs;
            && id in r
            && (r[id].waitingFor.Some? <==>
                  exists b :: Running(q.reqs, b) && q.reqs[b].serialising && q.reqs[b].Overlaps(offset, bytes))
  {
    InsertedOk(q, id, offset, bytes);
    var i := Inserted(q, id, offset, bytes);
    WaitedKeeps(i, id);
    if b :| Running(q.reqs, b) && q.reqs[b].serialising && q.reqs[b].Overlaps(offset, bytes) {
      assert b in i.list && Blocks(i.reqs, b, id);
    }
  }

  /** A request that ends a wait runs on exactly if no other running one is in its way. */
  lemma ResumeWaitsIff(q: Queue, id: Id)
    requires Inv(q) && Enabled(q, Move(id, Resume))
    ensures var r := Apply(q, Move(id, Resume)).reqs;
            && id in r
            && (r[id].waitingFor.Some? <==>
                  exists b :: b != id && Running(q.reqs, b) && q.reqs[b].Conflicts(q.reqs[id]))
  {
    var i := q.(reqs := q.reqs[id := q.reqs[id].(waitingFor := None)]);
    if b :| b != id && Running(q.reqs, b) && q.reqs[b].Conflicts(q.reqs[id]) {
      assert b in i.list && Blocks(i.reqs, b, id);
    }
  }

  lemma SerialisingOk(q: Queue, id: Id, align: nat)
    requires Listed(q.list, q.reqs) && id in q.reqs && align > 0 && GuardedBut(q.reqs, Some(id))
             && Acyclic(WaitRel(q.reqs))
    requires CoversAll(q.reqs) && q.inFlight == |Serialising(q.reqs)|
    ensures var i := SetSerialising(q, id, align);
            && Listed(i.list, i.reqs) && GuardedBut(i.reqs, Some(id)) && Acyclic(WaitRel(i.reqs)) && CoversAll(i.reqs)
            && i.inFlight == |Serialising(i.reqs)|
  {
    var i := SetSerialising(q, id, align);
    WaitRelSame(q.reqs, i.reqs);
    assert Serialising(i.reqs) == Serialising(q.reqs) + {id};
  }

  lemma RemovedKeeps(q: Queue, id: Id)
    requires Inv(q) && id in q.reqs
    ensures Inv(Removed(q, id))
  {
    var q' := Removed(q, id);
    WithoutList(q.list, id);
    WaitRelSame(q.reqs, q'.reqs);
    assert Serialising(q'.reqs) == Serialising(q.reqs) - {id};
  }

  lemma ApplyKeeps(q: Queue, m: Move)
    requires Inv(q) && Enabled(q, m)
    ensures Inv(Apply(q, m))
  {
    var id := m.id;
    match m.action {
      case Begin(offset, bytes) =>
        InsertedOk(q, id, offset, bytes);
        WaitedKeeps(Inserted(q, id, offset, bytes), id);
      case BeginSerialising(offset, bytes, align) =>
        InsertedOk(q, id, offset, bytes);
        SerialisingOk(Inserted(q, id, offset, bytes), id, align);
        CheckedKeeps(SetSerialising(Inserted(q, id, offset, bytes), id, align), id);
      case Recheck =>
        WaitedKeeps(q, id);
      case MakeSerialising(align) =>
        SerialisingOk(q, id, align);
        CheckedKeeps(SetSerialising(q, id, align), id);
      case End =>
        RemovedKeeps(q, id);
      case Resume =>
        var w := q.(reqs := q.reqs[id := q.reqs[id].(waitingFor := None)]);
        WaitRelSame(q.reqs, w.reqs);
        assert Serialising(w.reqs) == Serialising(q.reqs);
        CheckedKeeps(w, id);
    }
  }

  lemma {:induction false} LegalKeeps(q: Queue, moves: seq<Move>)
    requires Inv(q) && Legal(q, moves)
    ensures Inv(After(q, moves))
    decreases |moves|
  {
    if moves != [] {
      ApplyKeeps(q, moves[0]);
      LegalKeeps(Apply(q, moves[0]), moves[1..]);
    }
  }

  lemma EmptyOk()
    ensures Inv(EMPTY)
  {
    assert WaitRel(EMPTY.reqs) == {} && Serialising(EMPTY.reqs) == {};
  }

  /** After every run one of two conflicting requests waits, nobody waits in a circle, and each request
      guards at least its own bytes. */
  lemma ConflictingWait(moves: seq<Move>, a: Id, b: Id)
    requires Legal(EMPTY, moves) && a in After(EMPTY, moves).reqs && b in After(EMPTY, moves).reqs && a != b
    ensures var reqs := After(EMPTY, moves).reqs;
            && (reqs[a].Conflicts(reqs[b]) ==> !Running(reqs, a) || !Running(reqs, b))
            && Acyclic(WaitRel(reqs)) && reqs[a].Covers()
  {
    EmptyOk();
    LegalKeeps(EMPTY, moves);
    var reqs := After(EMPTY, moves).reqs;
    assert OneWaits(reqs[a], reqs[b]);
  }

  /** The range of a request changes only when it is made serialising. */
  lemma RangeFixed(q: Queue, m: Move, id: Id)
    requires Listed(q.list, q.reqs) && Enabled(q, m) && id in q.reqs
    requires m.id == id ==> !m.action.MakeSerialising? && !m.action.End?
    ensures var q' := Apply(q, m); id in q'.reqs && q'.reqs[id].(waitingFor := None) == q.reqs[id].(waitingFor := None)
    ensures m.id != id ==> Apply(q, m).reqs[id] == q.reqs[id]
  {
  }

  /** Looking again does not stop a running request. */
  lemma RecheckIdle(q: Queue, id: Id)
    requires Inv(q) && Running(q.reqs, id)
    ensures Waited(q, id) == q
  {
    WaitedKeeps(q, id);
    assert forall b :: b in q.reqs && b != id ==> OneWaits(q.reqs[b], q.reqs[id]);
    assert Checked(q, id).reqs == q.reqs;
  }

  lemma KeepsRunning(q: Queue, m: Move, id: Id)
    requires Inv(q) && Enabled(q, m) && Running(q.reqs, id)
    requires m.id == id ==> !m.action.MakeSerialising? && !m.action.End?
    ensures Running(Apply(q, m).reqs, id) && Apply(q, m).reqs[id] == q.reqs[id]
  {
    RangeFixed(q, m, id);
    if m.id == id && m.action.Recheck? {
      RecheckIdle(q, id);
    }
  }

  /** Between the read and the write of a padded request nothing that conflicts with it runs: from the moment
      it runs as a serialising request, and as long as its range does not grow, it keeps running and every other request
      that touches its range waits. */
  lemma {:induction false} ReadModifyWriteAlone(q: Queue, moves: seq<Move>, id: Id, b: Id)
    requires Inv(q) && Legal(q, moves) && Running(q.reqs, id) && q.reqs[id].serialising
    requires forall m :: m in moves && m.id == id ==> !m.action.MakeSerialising? && !m.action.End?
    ensures var reqs := After(q, moves).reqs;
            && Running(reqs, id) && reqs[id] == q.reqs[id]
            && (b in reqs && b != id && q.reqs[id].Overlaps(reqs[b].start, reqs[b].size) ==> !Running(reqs, b))
    decreases |moves|
  {
    if moves == [] {
      assert b in q.reqs && b != id ==> OneWaits(q.reqs[id], q.reqs[b]);
    } else {
      ApplyKeeps(q, moves[0]);
      KeepsRunning(q, moves[0], id);
      ReadModifyWriteAlone(Apply(q, moves[0]), moves[1..], id, b);
    }
  }

  /** Growing stops a running request exactly if another running request is in the way of the grown range. */
  lemma GrowthParksIff(q: Queue, id: Id, align: nat)
    requires Inv(q) && Running(q.reqs, id) && align > 0
    ensures !Running(Apply(q, Move(id, MakeSerialising(align))).reqs, id)
            <==> exists b :: b != id && Running(q.reqs, b) && q.reqs[b].Conflicts(Grown(q.reqs[id], align))
  {
    var g := SetSerialising(q, id, align);
    if b :| b != id && Running(q.reqs, b) && q.reqs[b].Conflicts(g.reqs[id]) {
      assert b in g.list && Blocks(g.reqs, b, id);
    }
  }

  /** No deadlock: some tracked request runs, or has been woken by the end of the one it waited for. */
  lemma {:induction false} SomebodyMoves(q: Queue, id: Id) returns (m: Id)
    requires Inv(q) && id in q.reqs
    ensures m in q.reqs && (Running(q.reqs, m) || q.reqs[m].waitingFor.value !in q.reqs)
    decreases Height(WaitRel(q.reqs), id)
  {
    if Running(q.reqs, id) || q.reqs[id].waitingFor.value !in q.reqs {
      m := id;
    } else {
      HeightDecreases(WaitRel(q.reqs), id, q.reqs[id].waitingFor.value);
      m := SomebodyMoves(q, q.reqs[id].waitingFor.value);
    }
  }

  /** Growing by `align` gives up no byte; `GrownNests` shows when this is so. */
  predicate GrowsOut(r: Request, align: nat)
    requires align > 0
  {
    var g := Grown(r, align);
    g.start <= r.start && r.start + r.size <= g.start + g.size
  }

  /** A newcomer finds no blocker but the request whose bytes it wants. */
  lemma NewcomerMeets(q: Queue, id: Id, n: Id, offset: int, bytes: nat, b: Id)
    requires Inv(q) && Running(q.reqs, id) && q.reqs[id].serialising && b in q.reqs && b != id
             && q.reqs[b].waitingFor.None?
    requires q.reqs[id].start <= offset && offset + bytes <= q.reqs[id].start + q.reqs[id].size
    ensures !q.reqs[b].Overlaps(offset, bytes)
  {
    assert OneWaits(q.reqs[id], q.reqs[b]);
  }

  /** A newcomer to bytes that request `id` has guarded is stopped by it while it runs, and by nobody else. */
  lemma NewcomerWaits(q: Queue, q1: Queue, id: Id, n: Id, offset: int, bytes: nat)
    requires Inv(q) && Running(q.reqs, id) && q.reqs[id].serialising && bytes > 0
    requires q.reqs[id].start <= offset && offset + bytes <= q.reqs[id].start + q.reqs[id].size
    requires Inv(q1) && Fresh(q1.reqs, n) && id in q1.reqs && q1.reqs.Keys == q.reqs.Keys
    requires forall b :: b in q.reqs && b != id ==> q1.reqs[b] == q.reqs[b]
    requires var g := q1.reqs[id];
             g.serialising && g.start <= q.reqs[id].start && q.reqs[id].start + q.reqs[id].size <= g.start + g.size
    ensures var i := Inserted(q1, n, offset, bytes);
            Listed(i.list, i.reqs) && (FirstBlocking(i.list, i.reqs, n).None? <==> !Running(q1.reqs, id))
  {
    var i := Inserted(q1, n, offset, bytes);
    NoDupCons(n, q1.list);
    if Running(q1.reqs, id) {
      assert id in i.list && Blocks(i.reqs, id, n);
    } else {
      forall b | b in i.list ensures !Blocks(i.reqs, b, n) {
        if b != n && b != id && q.reqs[b].waitingFor.None? {
          NewcomerMeets(q, id, n, offset, bytes, b);
        }
      }
    }
  }

  /** Why the range must not grow between read and write: a newcomer to the bytes that a running serialising request
      has guarded so far is let in exactly if the growth parks that request. */
  lemma GrowthLetsInIff(q: Queue, id: Id, align: nat, n: Id, offset: int, bytes: nat)
    requires Inv(q) && Running(q.reqs, id) && q.reqs[id].serialising && Fresh(q.reqs, n) && bytes > 0
    requires align > 0 && GrowsOut(q.reqs[id], align)
    requires q.reqs[id].start <= offset && offset + bytes <= q.reqs[id].start + q.reqs[id].size
    ensures var q1 := Apply(q, Move(id, MakeSerialising(align)));
            && Inv(q1) && Fresh(q1.reqs, n)
            && (Running(Apply(q1, Move(n, Begin(offset, bytes))).reqs, n) <==> !Running(q1.reqs, id))
  {
    var q1 := Apply(q, Move(id, MakeSerialising(align)));
    ApplyKeeps(q, Move(id, MakeSerialising(align)));
    assert Fresh(q1.reqs, n);
    NewcomerWaits(q, q1, id, n, offset, bytes);
    InsertedOk(q1, n, offset, bytes);
    WaitedKeeps(Inserted(q1, n, offset, bytes), n);
  }

  // ---- a run in which that happens ----

  /** One move before a run */
  lemma Precede(q: Queue, m: Move, rest: seq<Move>)
    requires Listed(q.list, q.reqs) && Enabled(q, m) && Legal(Apply(q, m), rest)
    ensures Legal(q, [m] + rest) && After(q, [m] + rest) == After(Apply(q, m), rest)
  {
    assert ([m] + rest)[1..] == rest;
  }

  /** Requests 0 and 1 run side by side in half a block each. */
  function SideBySide(half: nat): Queue {
    Queue([1, 0], map[0 := Request(0, half, true, 0, half, None), 1 := Request(half, half, false, half, half, None)], 1)
  }

  lemma FirstBegins(half: nat)
    requires half > 0
    ensures Apply(EMPTY, Move(0, BeginSerialising(0, half, half)))
            == Queue([0], map[0 := Request(0, half, true, 0, half, None)], 1)
  {
    NoDupCons(0, []);
    QuotientIs(half, 1, half);
    QuotientIs(half + half - 1, 1, half);
    var q := SetSerialising(Inserted(EMPTY, 0, 0, half), 0, half);
    assert q.list == [0];
    assert q.reqs == map[0 := Request(0, half, true, 0, half, None)];
    assert !Blocks(q.reqs, 0, 0);
  }

  lemma SecondBegins(half: nat)
    requires half > 0
    ensures var q := Queue([0], map[0 := Request(0, half, true, 0, half, None)], 1);
            NoDup(q.list) && Apply(q, Move(1, Begin(half, half))) == SideBySide(half)
  {
    NoDupCons(0, []);
    var q := Queue([0], map[0 := Request(0, half, true, 0, half, None)], 1);
    NoDupCons(1, q.list);
    var i := Inserted(q, 1, half, half);
    assert i.list == [1, 0] && [1, 0][1..] == [0];
    assert !Blocks(i.reqs, 0, 1) && !Blocks(i.reqs, 1, 1);
    assert i.reqs[1 := i.reqs[1]] == SideBySide(half).reqs;
  }

  function FirstMove(half: nat): Move {
    Move(0, BeginSerialising(0, half, half))
  }

  function SecondMove(half: nat): Move {
    Move(1, Begin(half, half))
  }

  /** Every run from there is part of a run from the start. */
  lemma FromStart(half: nat, rest: seq<Move>) returns (moves: seq<Move>)
    requires half > 0 && Legal(SideBySide(half), rest)
    ensures moves == [FirstMove(half)] + ([SecondMove(half)] + rest)
    ensures Legal(EMPTY, moves) && After(EMPTY, moves) == After(SideBySide(half), rest)
  {
    EmptyOk();
    FirstBegins(half);
    SecondBegins(half);
    var q := Apply(EMPTY, FirstMove(half));
    Precede(q, SecondMove(half), rest);
    Precede(EMPTY, FirstMove(half), [SecondMove(half)] + rest);
    moves := [FirstMove(half)] + ([SecondMove(half)] + rest);
  }

  lemma SideBySideOk(half: nat)
    requires half > 0
    ensures Inv(SideBySide(half))
  {
    EmptyOk();
    FirstBegins(half);
    SecondBegins(half);
    ApplyKeeps(EMPTY, FirstMove(half));
    ApplyKeeps(Apply(EMPTY, FirstMove(half)), SecondMove(half));
  }

  lemma GrowsIntoNext(half: nat)
    requires half > 0
    ensures var q := SideBySide(half); GrowsOut(q.reqs[0], 2 * half) && q.reqs[1].Conflicts(Grown(q.reqs[0], 2 * half))
  {
    assert Down(0, 2 * half) == 0;
    QuotientIs(half + 2 * half - 1, 1, 2 * half);
  }

  /** Growing to the whole block makes 0 reach into 1 and wait for it. Request 2, which wants the bytes that 0 has
      guarded all along, then runs. */
  ghost predicate LetsIn(q: Queue, half: nat) {
    && Inv(q) && half > 0 && Running(q.reqs, 0) && q.reqs[0].serialising && q.reqs[0].start == 0
       && q.reqs[0].size == half
    && var q1 := Apply(q, Move(0, MakeSerialising(2 * half)));
       && Inv(q1) && !Running(q1.reqs, 0) && Fresh(q1.reqs, 2)
       && Running(Apply(q1, Move(2, Begin(0, half))).reqs, 2)
  }

  lemma SideBySideLetsIn(half: nat)
    requires half > 0 && Inv(SideBySide(half))
    ensures LetsIn(SideBySide(half), half)
  {
    var q := SideBySide(half);
    GrowsIntoNext(half);
    assert Running(q.reqs, 0) && Running(q.reqs, 1) && Fresh(q.reqs, 2);
    GrowthParksIff(q, 0, 2 * half);
    GrowthLetsInIff(q, 0, 2 * half, 2, 0, half);
  }

  lemma RestRuns(q: Queue, half: nat)
    requires LetsIn(q, half)
    ensures var (grow, begin) := (Move(0, MakeSerialising(2 * half)), Move(2, Begin(0, half)));
            && Legal(q, []) && Legal(q, [grow]) && !Running(After(q, [grow]).reqs, 0)
            && Legal(q, [grow] + [begin]) && Running(After(q, [grow] + [begin]).reqs, 2)
  {
    var (grow, begin) := (Move(0, MakeSerialising(2 * half)), Move(2, Begin(0, half)));
    var q1 := Apply(q, grow);
    ApplyKeeps(q1, begin);
    Precede(q1, begin, []);
    assert [begin] + [] == [begin] && [grow] + [] == [grow];
    Precede(q, grow, []);
    Precede(q, grow, [begin]);
  }

  lemma Ordered(a: Move, b: Move, c: Move, d: Move)
    ensures [a] + ([b] + []) == [a, b] && [a] + ([b] + [c]) == [a, b, c] && [a] + ([b] + ([c] + [d])) == [a, b, c, d]
  {
  }

  /** Such a run, for every block size: up to the growth, up to the newcomer, and with it */
  lemma GrowthLetsInExample(half: nat)
    requires half > 0
    ensures var (a, b, c, d) :=
              (FirstMove(half), SecondMove(half), Move(0, MakeSerialising(2 * half)), Move(2, Begin(0, half)));
            && Legal(EMPTY, [a, b]) && LetsIn(After(EMPTY, [a, b]), half)
            && Legal(EMPTY, [a, b, c]) && !Running(After(EMPTY, [a, b, c]).reqs, 0)
            && Legal(EMPTY, [a, b, c, d]) && Running(After(EMPTY, [a, b, c, d]).reqs, 2)
  {
    SideBySideOk(half);
    SideBySideLetsIn(half);
    GrowthRuns(half);
    Ordered(FirstMove(half), SecondMove(half), Move(0, MakeSerialising(2 * half)), Move(2, Begin(0, half)));
  }

  lemma GrowthRuns(half: nat)
    requires half > 0 && LetsIn(SideBySide(half), half)
    ensures var (a, b, c, d) :=
              (FirstMove(half), SecondMove(half), Move(0, MakeSerialising(2 * half)), Move(2, Begin(0, half)));
            var (before, grown, after) := ([a] + ([b] + []), [a] + ([b] + [c]), [a] + ([b] + ([c] + [d])));
            && Legal(EMPTY, before) && After(EMPTY, before) == SideBySide(half)
            && Legal(EMPTY, grown) && !Running(After(EMPTY, grown).reqs, 0)
            && Legal(EMPTY, after) && Running(After(EMPTY, after).reqs, 2)
  {
    RestRuns(SideBySide(half), half);
    var (c, d) := (Move(0, MakeSerialising(2 * half)), Move(2, Begin(0, half)));
    var before := FromStart(half, []);
    var grown := FromStart(half, [c]);
    var after := FromStart(half, [c] + [d]);
  }
}
