/** Permissions on the edges of the block graph: the default policies, the refresh pass over a
    topological order, and the transaction that undoes a failed pass. */
module Permissions {
  import opened Dag
  import opened Options
  import opened BlockGraph

  datatype Perm = ConsistentRead | Write | WriteUnchanged | Resize

  type Perms = set<Perm>

  const ALL: Perms := {ConsistentRead, Write, WriteUnchanged, Resize}

  lemma AllPerms()
    ensures forall x :: x in ALL
  {
    forall x ensures x in ALL { match x { case ConsistentRead => case Write => case WriteUnchanged => case Resize => } }
  }

  /** `perm` and `shared_perm` of a `BdrvChild`. */
  datatype EdgePerm = EdgePerm(perm: Perms, shared: Perms)

  datatype Role = Role(data: bool, metadata: bool, filtered: bool, cow: bool)

  /** How a node's driver answers `bdrv_child_perm`. */
  datatype Driver = NoDriver | NoChildPerm | DefaultDriver | RawFormat

  /** `writable` is BDRV_O_RDWR without BDRV_O_INACTIVE; `sizeAligned` says that the image size is a
      multiple of the request alignment. */
  datatype NodeInfo = NodeInfo(driver: Driver, writable: bool, inactive: bool, noIo: bool, sizeAligned: bool,
      forceShare: bool)

  /** Asking for less and sharing more. */
  predicate Looser(a: EdgePerm, b: EdgePerm) {
    a.perm <= b.perm && a.shared >= b.shared
  }

  // ---------------------------------------------------------------- default policies

  function FilterPerms(p: EdgePerm): EdgePerm {
    EdgePerm(p.perm * ALL, p.shared * ALL)
  }

  function CowPerms(n: NodeInfo, p: EdgePerm): EdgePerm {
    EdgePerm(p.perm * {ConsistentRead},
             (if Write in p.shared then {Write, Resize} else {})
             + {ConsistentRead, WriteUnchanged}
             + (if n.inactive then {Write, Resize} else {}))
  }

  function MetadataPerms(n: NodeInfo, p: EdgePerm): EdgePerm {
    EdgePerm(p.perm + (if n.writable then {Write, Resize} else {}) + (if n.noIo then {} else {ConsistentRead}),
             p.shared - {Write, Resize})
  }

  function DataPerms(p: EdgePerm): EdgePerm {
    var w := if WriteUnchanged in p.perm then p.perm + {Write} else p.perm;
    EdgePerm(if Write in w then w + {Resize} else w, p.shared - {Resize})
  }

  function StoragePerms(n: NodeInfo, role: Role, p: EdgePerm): EdgePerm {
    var f := FilterPerms(p);
    var m := if role.metadata then MetadataPerms(n, f) else f;
    var d := if role.data then DataPerms(m) else m;
    if n.inactive then d.(shared := d.shared + {Write, Resize}) else d
  }

  function DefaultPerms(n: NodeInfo, role: Role, p: EdgePerm): EdgePerm {
    if role.filtered then FilterPerms(p)
    else if role.cow then CowPerms(n, p)
    else StoragePerms(n, role, p)
  }

  /** `bdrv_child_perm`: the driver's policy, with everything shared on a force-share child. */
  function ChildPerm(n: NodeInfo, role: Role, childForceShare: bool, p: EdgePerm): EdgePerm {
    var d := DefaultPerms(n, role, p);
    var r := if n.driver.RawFormat? then d.(perm := (d.perm - {Write, Resize}) + p.perm * {Write, Resize}) else d;
    if childForceShare then r.(shared := ALL) else r
  }

  /** Every default policy and the raw override are monotone. */
  lemma ChildPermMonotone(n: NodeInfo, role: Role, force: bool, p: EdgePerm, q: EdgePerm)
    requires Looser(p, q)
    ensures Looser(ChildPerm(n, role, force, p), ChildPerm(n, role, force, q))
  {
    assert Looser(FilterPerms(p), FilterPerms(q));
    assert Looser(CowPerms(n, p), CowPerms(n, q));
    var m, m' := MetadataPerms(n, FilterPerms(p)), MetadataPerms(n, FilterPerms(q));
    assert Looser(m, m');
    assert Looser(DataPerms(m), DataPerms(m')) && Looser(DataPerms(FilterPerms(p)), DataPerms(FilterPerms(q)));
  }

  // ---------------------------------------------------------------- the refresh pass

  type PermMap = map<Edge, EdgePerm>

  /** What a pass reads but does not change. `accepts` stands for the driver's `bdrv_check_perm`. */
  datatype Config = Config(owner: map<Edge, Node>, below: map<Edge, Node>, info: map<Node, NodeInfo>,
      role: map<Edge, Role>,
                           accepts: (Node, EdgePerm) -> bool)
  {
    predicate OwnedBy(e: Edge, n: Node) {
      e in owner && e in below && owner[e] == n
    }

    ghost predicate Total(p: PermMap) {
      && (forall e {:trigger below[e]} :: e in below ==> e in p && below[e] in info)
      && (forall e {:trigger owner[e]} :: e in owner ==> e in role && owner[e] in info)
    }

    /** Everything the users of node `n` need, and what all of them share. */
    ghost function Cumulative(p: PermMap, n: Node): EdgePerm {
      EdgePerm(set x: Perm | Needed(p, n, x), set x: Perm | Shared(p, n, x))
    }

    ghost predicate Needed(p: PermMap, n: Node, x: Perm) {
      exists e :: e in below && below[e] == n && e in p && x in p[e].perm
    }

    ghost predicate Shared(p: PermMap, n: Node, x: Perm) {
      forall e :: e in below && below[e] == n && e in p ==> x in p[e].shared
    }

    ghost predicate Conflict(p: PermMap, n: Node) {
      exists a, b :: Clash(p, n, a, b)
    }

    /** User `b` needs something that user `a` of the same node does not share. */
    predicate Clash(p: PermMap, n: Node, a: Edge, b: Edge) {
      && a != b && a in below && b in below && below[a] == n && below[b] == n
      && a in p && b in p && !(p[b].perm <= p[a].shared)
    }

    /** The checks of `bdrv_node_refresh_perm`. */
    predicate NodeOk(n: Node, c: EdgePerm)
      requires n in info
    {
      var writes := Write in c.perm || WriteUnchanged in c.perm;
      && !(writes && !info[n].writable)
      && !(writes && Resize !in c.perm && !info[n].sizeAligned)
      && (info[n].driver.NoDriver? || accepts(n, c))
    }

    /** What the policy of edge `e`'s owner asks of `e`, given the owner's cumulative permissions. */
    function Wanted(e: Edge, c: EdgePerm): EdgePerm
      requires e in owner && owner[e] in info && e in role
    {
      ChildPerm(info[owner[e]], role[e], e in below && below[e] in info && info[below[e]].forceShare, c)
    }

    predicate HasPolicy(n: Node) {
      n in info && (info[n].driver.DefaultDriver? || info[n].driver.RawFormat?)
    }

    predicate Decided(e: Edge) {
      e in owner && e in below && HasPolicy(owner[e])
    }

    /** The permissions once the edges of `n` follow its cumulative permissions `c`. */
    ghost function SetChildren(p: PermMap, n: Node, c: EdgePerm): PermMap
      requires Total(p)
    {
      map e | e in p :: if OwnedBy(e, n) && HasPolicy(n) then Wanted(e, c) else p[e]
    }

    /** One node after the other hands its cumulative permissions down, with no check. */
    ghost function Propagate(p: PermMap, list: seq<Node>): PermMap
      requires Total(p)
    {
      if list == [] then p else Propagate(SetChildren(p, list[0], Cumulative(p, list[0])), list[1..])
    }

    /** Parents come before their children, and no node comes twice. */
    ghost predicate Topological(list: seq<Node>) {
      list == [] || (
        && list[0] !in list[1..]
        && (forall e :: OwnedBy(e, list[0]) ==> below[e] in list[1..])
        && Topological(list[1..]))
    }

    /** Node `n` agrees with its users: its edges are what its policy makes of its cumulative permissions. */
    ghost predicate Settled(p: PermMap, n: Node)
      requires Total(p)
    {
      forall e :: OwnedBy(e, n) && HasPolicy(n) ==> p[e] == Wanted(e, Cumulative(p, n))
    }
  }

  ghost predicate LooserMap(p: PermMap, q: PermMap) {
    p.Keys == q.Keys && forall e :: e in p ==> Looser(p[e], q[e])
  }

  /** Node `m` hands down to the nodes after it only: the users of any other node keep their permissions. */
  lemma SetChildrenFrame(g: Config, p: PermMap, m: Node, c: EdgePerm, n: Node)
    requires g.Total(p) && forall e :: g.OwnedBy(e, m) ==> g.below[e] != n
    ensures var q := g.SetChildren(p, m, c);
            && (forall e :: e in g.below && g.below[e] == n ==> q[e] == p[e])
            && g.Cumulative(q, n) == g.Cumulative(p, n) && (g.Conflict(q, n) <==> g.Conflict(p, n))
  {
    var q := g.SetChildren(p, m, c);
    assert forall e :: e in g.below && g.below[e] == n ==> q[e] == p[e];
    assert forall x :: g.Needed(q, n, x) <==> g.Needed(p, n, x);
    assert forall x :: g.Shared(q, n, x) <==> g.Shared(p, n, x);
    assert forall a, b :: g.Clash(q, n, a, b) <==> g.Clash(p, n, a, b);
  }

  /** A pass over nodes that do not lead to `n` leaves the users of `n` alone. */
  lemma {:induction false} PropagateFrame(g: Config, p: PermMap, list: seq<Node>, n: Node)
    requires g.Total(p) && g.Topological(list) && n !in list
    requires forall e :: e in g.owner && e in g.below && g.below[e] == n ==> g.owner[e] !in list
    ensures var q := g.Propagate(p, list);
            && q.Keys == p.Keys && g.Cumulative(q, n) == g.Cumulative(p, n) && (g.Conflict(q, n) <==> g.Conflict(p, n))
            && (forall e :: e in p && (e in g.owner ==> g.owner[e] !in list) ==> q[e] == p[e])
  {
    if list != [] {
      var c := g.Cumulative(p, list[0]);
      SetChildrenFrame(g, p, list[0], c, n);
      PropagateFrame(g, g.SetChildren(p, list[0], c), list[1..], n);
    }
  }

  lemma {:induction false} TopologicalChild(g: Config, list: seq<Node>, e: Edge)
    requires g.Topological(list) && e in g.owner && e in g.below && g.owner[e] in list
    ensures g.below[e] in list && g.below[e] != list[0]
  {
    if g.owner[e] != list[0] {
      TopologicalChild(g, list[1..], e);
    }
  }

  /** One step of the pass settles its node for good. */
  lemma HeadSettled(g: Config, p: PermMap, list: seq<Node>)
    requires g.Total(p) && list != [] && g.Topological(list)
    ensures var m := list[0];
            var q := g.Propagate(p, list);
            q.Keys == p.Keys && g.Total(q) && g.Cumulative(q, m) == g.Cumulative(p, m)
                && (g.Conflict(q, m) <==> g.Conflict(p, m))
            && g.Settled(q, m)
  {
    var m := list[0];
    var c := g.Cumulative(p, m);
    var p1 := g.SetChildren(p, m, c);
    SetChildrenFrame(g, p, m, c, m);
    forall e | e in g.owner && e in g.below && g.below[e] == m ensures g.owner[e] !in list[1..] {
      if g.owner[e] in list[1..] {
        TopologicalChild(g, list, e);
      }
    }
    PropagateFrame(g, p1, list[1..], m);
    var q := g.Propagate(p, list);
    forall e | g.OwnedBy(e, m) && g.HasPolicy(m) ensures q[e] == g.Wanted(e, g.Cumulative(q, m)) {
      assert p1[e] == g.Wanted(e, c);
    }
  }

  /** One pass over a topological order settles every node it visits. */
  lemma {:induction false} PropagateSettles(g: Config, p: PermMap, list: seq<Node>)
    requires g.Total(p) && g.Topological(list)
    ensures var q := g.Propagate(p, list);
            q.Keys == p.Keys && g.Total(q) && forall n :: n in list ==> g.Settled(q, n)
  {
    if list != [] {
      HeadSettled(g, p, list);
      PropagateSettles(g, g.SetChildren(p, list[0], g.Cumulative(p, list[0])), list[1..]);
    }
  }

  /** The checks of the pass, each made at the moment its node is visited. */
  ghost predicate PassOk(g: Config, p: PermMap, list: seq<Node>)
    requires g.Total(p)
  {
    list == [] || (
      var c := g.Cumulative(p, list[0]);
      && list[0] in g.info && !g.Conflict(p, list[0]) && g.NodeOk(list[0], c)
      && PassOk(g, g.SetChildren(p, list[0], c), list[1..]))
  }

  ghost predicate Accepted(g: Config, q: PermMap, list: seq<Node>) {
    forall n :: n in list ==> n in g.info && !g.Conflict(q, n) && g.NodeOk(n, g.Cumulative(q, n))
  }

  /** The pass succeeds exactly when the permissions it ends with have no conflict and pass every check. */
  lemma {:induction false} PassOkIff(g: Config, p: PermMap, list: seq<Node>)
    requires g.Total(p) && g.Topological(list)
    ensures PassOk(g, p, list) <==> Accepted(g, g.Propagate(p, list), list)
  {
    if list != [] {
      HeadSettled(g, p, list);
      PassOkIff(g, g.SetChildren(p, list[0], g.Cumulative(p, list[0])), list[1..]);
      assert forall n :: n in list <==> n == list[0] || n in list[1..];
    }
  }

  lemma CumulativeMonotone(g: Config, p: PermMap, q: PermMap, n: Node)
    requires LooserMap(p, q)
    ensures Looser(g.Cumulative(p, n), g.Cumulative(q, n))
    ensures g.Conflict(p, n) ==> g.Conflict(q, n)
  {
    forall x | g.Needed(p, n, x) ensures g.Needed(q, n, x) {
      var e :| e in g.below && g.below[e] == n && e in p && x in p[e].perm;
      assert e in q && x in q[e].perm;
    }
    forall x | g.Shared(q, n, x) ensures g.Shared(p, n, x) {
      forall e | e in g.below && g.below[e] == n && e in p ensures x in p[e].shared {
        assert e in q && x in q[e].shared;
      }
    }
    if g.Conflict(p, n) {
      var a, b :| g.Clash(p, n, a, b);
      assert Looser(p[a], q[a]) && Looser(p[b], q[b]);
      assert g.Clash(q, n, a, b);
    }
  }

  /** Looser permissions at the top make looser permissions everywhere. */
  lemma {:induction false} PropagateMonotone(g: Config, p: PermMap, q: PermMap, list: seq<Node>)
    requires g.Total(p) && g.Total(q) && LooserMap(p, q)
    ensures LooserMap(g.Propagate(p, list), g.Propagate(q, list))
  {
    if list != [] {
      var n := list[0];
      CumulativeMonotone(g, p, q, n);
      var p1, q1 := g.SetChildren(p, n, g.Cumulative(p, n)), g.SetChildren(q, n, g.Cumulative(q, n));
      forall e | e in p1 ensures Looser(p1[e], q1[e]) {
        if g.OwnedBy(e, n) && g.HasPolicy(n) {
          ChildPermMonotone(g.info[n], g.role[e], g.below[e] in g.info && g.info[g.below[e]].forceShare,
                            g.Cumulative(p, n), g.Cumulative(q, n));
        }
      }
      PropagateMonotone(g, p1, q1, list[1..]);
    }
  }

  lemma {:induction false} PropagateFixed(g: Config, p: PermMap, list: seq<Node>)
    requires g.Total(p) && forall n :: n in list ==> g.Settled(p, n)
    ensures g.Propagate(p, list) == p
  {
    if list != [] {
      assert g.Settled(p, list[0]);
      var q := g.SetChildren(p, list[0], g.Cumulative(p, list[0]));
      assert forall e :: e in p ==> q[e] == p[e];
      assert q == p;
      PropagateFixed(g, p, list[1..]);
    }
  }

  /** Loosening one edge of a settled, conflict-free graph loosens every edge and creates no conflict. */
  lemma LooseningIsSafe(g: Config, p: PermMap, list: seq<Node>, e0: Edge, x: EdgePerm)
    requires g.Total(p) && (forall n :: n in list ==> g.Settled(p, n)) && (forall n :: !g.Conflict(p, n))
    requires e0 in p && Looser(x, p[e0])
    ensures g.Total(p[e0 := x])
    ensures var q := g.Propagate(p[e0 := x], list);
            LooserMap(q, p) && forall n :: !g.Conflict(q, n)
  {
    PropagateMonotone(g, p[e0 := x], p, list);
    PropagateFixed(g, p, list);
    var q := g.Propagate(p[e0 := x], list);
    forall n ensures !g.Conflict(q, n) {
      CumulativeMonotone(g, q, p, n);
    }
  }

  /** A node that would write without being allowed to grow, on an image of odd size. */
  ghost predicate OddSize(g: Config, q: PermMap, n: Node) {
    var c := g.Cumulative(q, n);
    n in g.info && (Write in c.perm || WriteUnchanged in c.perm) && Resize !in c.perm && !g.info[n].sizeAligned
  }

  /** Loosening can still be refused, and exactly for one of two reasons: a user gave up Resize but not Write above an
      image whose size is not a multiple of the request alignment, or a driver does not accept the looser
      permissions. */
  lemma LooseningRefusedIff(g: Config, p: PermMap, list: seq<Node>, e0: Edge, x: EdgePerm)
    requires g.Total(p) && g.Topological(list) && (forall n :: n in list ==> g.Settled(p, n))
             && (forall n :: !g.Conflict(p, n))
    requires Accepted(g, p, list) && e0 in p && Looser(x, p[e0])
    ensures g.Total(p[e0 := x])
    ensures PassOk(g, p[e0 := x], list) <==>
            var q := g.Propagate(p[e0 := x], list);
            forall n :: n in list ==>
              !OddSize(g, q, n)
              && (g.info[n].driver.NoDriver? || g.accepts(n, g.Cumulative(q, n)))
  {
    LooseningIsSafe(g, p, list, e0, x);
    PassOkIff(g, p[e0 := x], list);
    var q := g.Propagate(p[e0 := x], list);
    forall n | n in list
      ensures g.NodeOk(n, g.Cumulative(q, n)) <==>
              !OddSize(g, q, n) && (g.info[n].driver.NoDriver? || g.accepts(n, g.Cumulative(q, n)))
    {
      CumulativeMonotone(g, q, p, n);
    }
  }

  /** Loosening that is refused: the only user of an image of odd size keeps Write and gives up Resize. */
  lemma LooseningRefusedExample() returns (g: Config, p: PermMap, x: EdgePerm)
    ensures g.Total(p) && g.Topological([0]) && g.Settled(p, 0) && (forall n :: !g.Conflict(p, n))
            && Accepted(g, p, [0])
    ensures 0 in p && Looser(x, p[0]) && g.Total(p[0 := x]) && !PassOk(g, p[0 := x], [0])
  {
    g := Config(map[], map[0 := 0], map[0 := NodeInfo(DefaultDriver, true, false, false, false, false)], map[],
        (n, c) => true);
    p := map[0 := EdgePerm({Write, Resize}, ALL)];
    x := EdgePerm({Write}, ALL);
    var q := p[0 := x];
    assert forall e :: !g.OwnedBy(e, 0);
    assert g.Needed(p, 0, Resize) by { assert Resize in p[0].perm; }
    assert g.Needed(q, 0, Write) by { assert Write in q[0].perm; }
    assert !g.Needed(q, 0, Resize);
    assert [0][1..] == [];
    assert !g.NodeOk(0, g.Cumulative(q, 0));
  }

  // ---------------------------------------------------------------- the code of the pass

  /** `bdrv_topological_dfs` lists: parents before children, by the children lists. */
  ghost predicate TopoList(children: map<Node, seq<Edge>>, below: map<Edge, Node>, list: seq<Node>) {
    list == [] || (
      && list[0] !in list[1..] && list[0] in children
      && (forall i :: 0 <= i < |children[list[0]]|
            ==> children[list[0]][i] in below && below[children[list[0]][i]] in list[1..])
      && TopoList(children, below, list[1..]))
  }

  /** `bdrv_topological_dfs`: `found` holds the nodes already met, of which those not yet in `list` lead to `bs`. */
  method TopologicalDfs(children: map<Node, seq<Edge>>, below: map<Edge, Node>, ghost r: Rel, list0: seq<Node>,
      found0: set<Node>, bs: Node)
    returns (list: seq<Node>, found: set<Node>)
    requires Spells(children, below, r) && Acyclic(r) && bs in children && TopoList(children, below, list0)
    requires forall n :: n in list0 ==> n in found0
    requires forall n :: n in found0 ==> n in list0 || Reach(r, n, bs)
    ensures TopoList(children, below, list) && found0 <= found && bs in found
    ensures forall n :: n in list ==> n in found && (n in list0 || Reach(r, bs, n))
    ensures forall n :: n in list0 ==> n in list
    ensures forall n :: n in found ==> n in list || n in found0
    decreases Height(r, bs)
  {
    list, found := list0, found0;
    if bs in found {
      return;
    }
    found := found + {bs};
    var kids := children[bs];
    var i := 0;
    while i < |kids|
      invariant 0 <= i <= |kids|
      invariant TopoList(children, below, list) && found0 + {bs} <= found
      invariant forall n :: n in list ==> n in found && (n in list0 || (Reach(r, bs, n) && n != bs))
      invariant forall n :: n in list0 ==> n in list
      invariant forall n :: n in found ==> n in list || n in found0 || n == bs
      invariant forall j :: 0 <= j < i ==> kids[j] in below && below[kids[j]] in list
    {
      var b := below[kids[i]];
      HeightDecreases(r, bs, b);
      ghost var list1 := list;
      forall n | n in found && n !in list ensures Reach(r, n, b) {
        ReachSelf(r, b);
        ReachEdge(r, bs, b, b);
        if n != bs { ReachTrans(r, n, bs, b); }
      }
      list, found := TopologicalDfs(children, below, r, list, found, b);
      forall n | n in list && n !in list1 ensures Reach(r, bs, n) && n != bs {
        ReachEdge(r, bs, b, n);
      }
      assert b in list;
      i := i + 1;
    }
    ReachSelf(r, bs);
    list := [bs] + list;
  }

  /** The list of node `n`'s users names exactly the edges that lead to it. */
  ghost predicate UsersOf(g: Config, n: Node, list: seq<Edge>) {
    forall e :: e in list <==> e in g.below && g.below[e] == n
  }

  /** `bdrv_get_cumulative_perm`. */
  method GetCumulativePerm(g: Config, p: PermMap, n: Node, list: seq<Edge>) returns (c: EdgePerm)
    requires g.Total(p) && UsersOf(g, n, list)
    ensures c == g.Cumulative(p, n)
  {
    c := EdgePerm({}, ALL);
    AllPerms();
    var i := 0;
    while i < |list|
      invariant 0 <= i <= |list|
      invariant forall x :: x in c.perm <==> exists j :: 0 <= j < i && list[j] in p && x in p[list[j]].perm
      invariant forall x :: x in c.shared <==> forall j :: 0 <= j < i && list[j] in p ==> x in p[list[j]].shared
    {
      assert list[i] in list && g.below[list[i]] == n;
      c := EdgePerm(c.perm + p[list[i]].perm, c.shared * p[list[i]].shared);
      i := i + 1;
    }
    forall x ensures (x in c.perm <==> g.Needed(p, n, x)) && (x in c.shared <==> g.Shared(p, n, x)) {
      if g.Needed(p, n, x) {
        var e :| e in g.below && g.below[e] == n && e in p && x in p[e].perm;
        assert e in list;
      }
      if x in c.shared {
        forall e | e in g.below && g.below[e] == n && e in p ensures x in p[e].shared {
          assert e in list;
        }
      } else {
        var j :| 0 <= j < |list| && list[j] in p && x !in p[list[j]].shared;
        assert list[j] in list;
      }
    }
  }

  /** `bdrv_parent_perms_conflict`. */
  method ParentPermsConflict(g: Config, p: PermMap, n: Node, list: seq<Edge>) returns (conflict: bool)
    requires g.Total(p) && UsersOf(g, n, list)
    ensures conflict <==> g.Conflict(p, n)
  {
    var i := 0;
    while i < |list|
      invariant 0 <= i <= |list|
      invariant forall k, b :: 0 <= k < i ==> !g.Clash(p, n, list[k], b)
    {
      var a := list[i];
      var j := 0;
      while j < |list|
        invariant 0 <= j <= |list|
        invariant forall k :: 0 <= k < j ==> !g.Clash(p, n, a, list[k])
      {
        assert a in list && list[j] in list && g.below[a] == n && g.below[list[j]] == n;
        if a != list[j] && !(p[list[j]].perm <= p[a].shared) {
          assert g.Clash(p, n, a, list[j]);
          return true;
        }
        j := j + 1;
      }
      assert forall b :: g.Clash(p, n, a, b) ==> b in list;
      i := i + 1;
    }
    assert forall a, b :: g.Clash(p, n, a, b) ==> a in list;
    return false;
  }

  /** The old permissions of an edge, kept by `bdrv_child_set_perm` for an abort. */
  datatype PermUndo = PermUndo(edge: Edge, was: EdgePerm)

  function UndoPerms(p: PermMap, tran: seq<PermUndo>): PermMap
    decreases |tran|
  {
    if tran == [] then p
    else UndoPerms(p[tran[|tran| - 1].edge := tran[|tran| - 1].was], tran[..|tran| - 1])
  }

  lemma SetUndone(p: PermMap, e: Edge, x: EdgePerm, tran: seq<PermUndo>)
    requires e in p
    ensures UndoPerms(p[e := x], tran + [PermUndo(e, p[e])]) == UndoPerms(p, tran)
  {
    assert (tran + [PermUndo(e, p[e])])[..|tran|] == tran;
    assert p[e := x][e := p[e]] == p;
  }

  /** The loop of `bdrv_node_refresh_perm` over the children of `n`. */
  method SetChildPerms(g: Config, p: PermMap, tran: seq<PermUndo>, n: Node, c: EdgePerm, kids: seq<Edge>)
    returns (p': PermMap, tran': seq<PermUndo>)
    requires g.Total(p) && (forall e :: e in kids <==> g.OwnedBy(e, n)) && g.HasPolicy(n)
    ensures p' == g.SetChildren(p, n, c) && UndoPerms(p', tran') == UndoPerms(p, tran)
  {
    p', tran' := p, tran;
    var i := 0;
    while i < |kids|
      invariant 0 <= i <= |kids| && p'.Keys == p.Keys
      invariant forall e :: e in p ==> p'[e] == if e in kids[..i] && g.OwnedBy(e, n) then g.Wanted(e, c) else p[e]
      invariant UndoPerms(p', tran') == UndoPerms(p, tran)
    {
      var e := kids[i];
      assert e in kids && g.OwnedBy(e, n);
      var x := g.Wanted(e, c);
      SetUndone(p', e, x, tran');
      assert kids[..i + 1] == kids[..i] + [e];
      p', tran' := p'[e := x], tran' + [PermUndo(e, p'[e])];
      i := i + 1;
    }
    assert kids[..i] == kids;
    assert p' == g.SetChildren(p, n, c);
  }

  /** `bdrv_node_refresh_perm`. */
  method NodeRefreshPerm(g: Config, p: PermMap, tran: seq<PermUndo>, n: Node, users: seq<Edge>, kids: seq<Edge>)
    returns (ok: bool, p': PermMap, tran': seq<PermUndo>)
    requires g.Total(p) && UsersOf(g, n, users) && (forall e :: e in kids <==> g.OwnedBy(e, n)) && n in g.info
    ensures ok <==> g.NodeOk(n, g.Cumulative(p, n))
    ensures p' == if ok then g.SetChildren(p, n, g.Cumulative(p, n)) else p
    ensures UndoPerms(p', tran') == UndoPerms(p, tran)
  {
    p', tran' := p, tran;
    var c := GetCumulativePerm(g, p, n, users);
    ok := g.NodeOk(n, c);
    if ok && g.HasPolicy(n) {
      p', tran' := SetChildPerms(g, p, tran, n, c, kids);
    } else if ok {
      assert g.SetChildren(p, n, c) == p;
    }
  }

  /** The lists of a graph match its edges. */
  ghost predicate ListsMatch(g: Config, parents: map<Node, seq<Edge>>, children: map<Node, seq<Edge>>) {
    && parents.Keys == g.info.Keys && children.Keys == g.info.Keys
    && (forall n {:trigger parents[n]} :: n in g.info ==> UsersOf(g, n, parents[n]))
    && (forall n, e {:trigger e in children[n]} :: n in g.info ==> (e in children[n] <==> g.OwnedBy(e, n)))
  }

  /** `bdrv_do_refresh_perms`: stops at the first node with a conflict or a failed check. */
  method DoRefreshPerms(g: Config, parents: map<Node, seq<Edge>>, children: map<Node, seq<Edge>>, p: PermMap,
      tran: seq<PermUndo>, list: seq<Node>)
    returns (ok: bool, p': PermMap, tran': seq<PermUndo>)
    requires g.Total(p) && ListsMatch(g, parents, children) && forall n :: n in list ==> n in g.info
    ensures ok <==> PassOk(g, p, list)
    ensures ok ==> p' == g.Propagate(p, list)
    ensures p'.Keys == p.Keys && UndoPerms(p', tran') == UndoPerms(p, tran)
  {
    p', tran' := p, tran;
    var i := 0;
    assert list[0..] == list;
    while i < |list|
      invariant 0 <= i <= |list| && p'.Keys == p.Keys && g.Total(p') && UndoPerms(p', tran') == UndoPerms(p, tran)
      invariant g.Propagate(p', list[i..]) == g.Propagate(p, list)
      invariant PassOk(g, p', list[i..]) <==> PassOk(g, p, list)
    {
      var n := list[i];
      assert n in list && list[i..][0] == n && list[i..][1..] == list[i + 1..];
      var conflict := ParentPermsConflict(g, p', n, parents[n]);
      if conflict {
        return false, p', tran';
      }
      var good;
      good, p', tran' := NodeRefreshPerm(g, p', tran', n, parents[n], children[n]);
      if !good {
        return false, p', tran';
      }
      i := i + 1;
    }
    ok := true;
  }

  lemma {:induction false} TopoListTopological(g: Config, parents: map<Node, seq<Edge>>, children: map<Node, seq<Edge>>,
      list: seq<Node>)
    requires ListsMatch(g, parents, children) && TopoList(children, g.below, list)
    ensures g.Topological(list) && forall n :: n in list ==> n in g.info
  {
    if list != [] {
      TopoListTopological(g, parents, children, list[1..]);
      forall e | g.OwnedBy(e, list[0]) ensures g.below[e] in list[1..] {
        assert e in children[list[0]];
      }
    }
  }

  lemma ListsSpell(g: Config, p: PermMap, parents: map<Node, seq<Edge>>, children: map<Node, seq<Edge>>)
    requires g.Total(p) && ListsMatch(g, parents, children)
    ensures Spells(children, g.below, RelOf(g.owner, g.below))
  {
    var r := RelOf(g.owner, g.below);
    forall n, i | n in children && 0 <= i < |children[n]|
      ensures children[n][i] in g.below && g.below[children[n][i]] in children && (n, g.below[children[n][i]]) in r
    {
      assert children[n][i] in children[n];
    }
    forall a, b | (a, b) in r ensures HasChild(children, g.below, a, b) {
      var e :| e in g.owner && e in g.below && g.owner[e] == a && g.below[e] == b;
      assert e in children[a];
    }
  }

  lemma {:induction false} TopologicalClosed(g: Config, list: seq<Node>, path: seq<Node>, a: Node, b: Node)
    requires g.Topological(list) && a in list && IsPath(RelOf(g.owner, g.below), path, a, b)
    ensures b in list
    decreases |path|
  {
    if |path| > 1 {
      var r := RelOf(g.owner, g.below);
      assert (path[0], path[0 + 1]) in r;
      var e :| e in g.owner && e in g.below && g.owner[e] == path[0] && g.below[e] == path[1];
      TopologicalChild(g, list, e);
      assert IsPath(r, path[1..], path[1], b) by {
        forall i | 0 <= i < |path[1..]| - 1 ensures (path[1..][i], path[1..][i + 1]) in r {
          assert (path[i + 1], path[i + 1 + 1]) in r;
        }
      }
      TopologicalClosed(g, list, path[1..], path[1], b);
    }
  }

  function Members(list: seq<Node>): set<Node> {
    set n | n in list
  }

  /** Node `n` is one of `starts` or below one of them. */
  ghost predicate Leads(g: Config, starts: set<Node>, n: Node) {
    exists s :: s in starts && Reach(RelOf(g.owner, g.below), s, n)
  }

  /** The order that `bdrv_list_refresh_perms` works in: all nodes that `starts` lead to, and no others. The walks
      share what they have found. */
  method RefreshOrder(g: Config, p: PermMap, parents: map<Node, seq<Edge>>, children: map<Node, seq<Edge>>,
      starts: seq<Node>) returns (list: seq<Node>)
    requires g.Total(p) && ListsMatch(g, parents, children) && Acyclic(RelOf(g.owner, g.below))
    requires forall n :: n in starts ==> n in g.info
    ensures g.Topological(list) && (forall n :: n in list ==> n in g.info)
    ensures forall n :: n in list <==> Leads(g, Members(starts), n)
  {
    ListsSpell(g, p, parents, children);
    ghost var r := RelOf(g.owner, g.below);
    var found: set<Node> := {};
    list := [];
    var i := 0;
    while i < |starts|
      invariant 0 <= i <= |starts| && TopoList(children, g.below, list) && (forall n :: n in found <==> n in list)
      invariant forall n :: n in list ==> Leads(g, Members(starts), n)
      invariant forall j :: 0 <= j < i ==> starts[j] in list
    {
      assert starts[i] in starts;
      list, found := TopologicalDfs(children, g.below, r, list, found, starts[i]);
      i := i + 1;
    }
    TopoListTopological(g, parents, children, list);
    forall n | Leads(g, Members(starts), n) ensures n in list {
      var s :| s in starts && Reach(r, s, n);
      var path :| IsPath(r, path, s, n);
      TopologicalClosed(g, list, path, s, n);
    }
  }

  /** Everything `starts` lead to is settled, free of conflicts and accepted. */
  ghost predicate RefreshedBelow(g: Config, p: PermMap, starts: set<Node>)
    requires g.Total(p)
  {
    forall n :: Leads(g, starts, n) ==>
      n in g.info && g.Settled(p, n) && !g.Conflict(p, n) && g.NodeOk(n, g.Cumulative(p, n))
  }

  /** `q` differs from `p` at most on the edges that the policies below `starts` decide. */
  ghost predicate SameElsewhere(g: Config, p: PermMap, q: PermMap, starts: set<Node>) {
    && q.Keys == p.Keys
    && forall e :: e in p && !(g.Decided(e) && Leads(g, starts, g.owner[e])) ==> q[e] == p[e]
  }

  ghost predicate Solvable(g: Config, p: PermMap, starts: set<Node>) {
    exists q :: SameElsewhere(g, p, q, starts) && g.Total(q) && RefreshedBelow(g, q, starts)
  }

  lemma SameUsers(g: Config, p: PermMap, q: PermMap, n: Node)
    requires p.Keys == q.Keys && forall e :: e in p && e in g.below && g.below[e] == n ==> q[e] == p[e]
    ensures g.Cumulative(p, n) == g.Cumulative(q, n)
  {
    assert forall x :: g.Needed(q, n, x) <==> g.Needed(p, n, x);
    assert forall x :: g.Shared(q, n, x) <==> g.Shared(p, n, x);
  }

  /** `q` is `p` except for the edges that the nodes in `list` decide. */
  ghost predicate SameBut(g: Config, p: PermMap, q: PermMap, list: seq<Node>) {
    q.Keys == p.Keys && forall e :: e in p && !(g.Decided(e) && g.owner[e] in list) ==> q[e] == p[e]
  }

  lemma UniqueStep(g: Config, p: PermMap, q: PermMap, list: seq<Node>)
    requires g.Total(p) && g.Total(q) && list != [] && g.Topological(list) && g.Settled(q, list[0])
             && SameBut(g, p, q, list)
    ensures SameBut(g, g.SetChildren(p, list[0], g.Cumulative(p, list[0])), q, list[1..])
  {
    var m := list[0];
    forall e | e in p && e in g.below && g.below[e] == m ensures q[e] == p[e] {
      if e in g.owner && g.owner[e] in list {
        TopologicalChild(g, list, e);
      }
    }
    SameUsers(g, p, q, m);
  }

  /** The pass finds the only permissions that settle its nodes and change nothing else. */
  lemma {:induction false} PropagateUnique(g: Config, p: PermMap, q: PermMap, list: seq<Node>)
    requires g.Total(p) && g.Total(q) && g.Topological(list) && SameBut(g, p, q, list)
    requires forall n :: n in list ==> g.Settled(q, n)
    ensures g.Propagate(p, list) == q
  {
    if list != [] {
      UniqueStep(g, p, q, list);
      PropagateUnique(g, g.SetChildren(p, list[0], g.Cumulative(p, list[0])), q, list[1..]);
    }
  }

  lemma SolutionAccepted(g: Config, p: PermMap, starts: set<Node>, list: seq<Node>)
    requires g.Total(p) && g.Topological(list) && forall n :: n in list <==> Leads(g, starts, n)
    requires Solvable(g, p, starts)
    ensures PassOk(g, p, list)
  {
    var q :| SameElsewhere(g, p, q, starts) && g.Total(q) && RefreshedBelow(g, q, starts);
    PropagateUnique(g, p, q, list);
    PassOkIff(g, p, list);
  }

  /** `bdrv_list_refresh_perms` inside a transaction: it fails only if no permissions below `starts` would do. */
  method ListRefreshPerms(g: Config, parents: map<Node, seq<Edge>>, children: map<Node, seq<Edge>>, p: PermMap,
      tran: seq<PermUndo>, starts: seq<Node>)
    returns (ok: bool, p': PermMap, tran': seq<PermUndo>)
    requires g.Total(p) && ListsMatch(g, parents, children) && Acyclic(RelOf(g.owner, g.below))
    requires forall n :: n in starts ==> n in g.info
    ensures p'.Keys == p.Keys && UndoPerms(p', tran') == UndoPerms(p, tran)
    ensures var from := Members(starts);
            && (ok <==> Solvable(g, p, from))
            && (ok ==> g.Total(p') && RefreshedBelow(g, p', from) && SameElsewhere(g, p, p', from))
  {
    var list := RefreshOrder(g, p, parents, children, starts);
    ok, p', tran' := DoRefreshPerms(g, parents, children, p, tran, list);
    PropagateSettles(g, p, list);
    PassOkIff(g, p, list);
    PropagateKeeps(g, p, list);
    ghost var from := Members(starts);
    if Solvable(g, p, from) {
      SolutionAccepted(g, p, from, list);
    }
  }

  /** `bdrv_refresh_perms` inside a transaction */
  method RefreshPerms(g: Config, parents: map<Node, seq<Edge>>, children: map<Node, seq<Edge>>, p: PermMap,
      tran: seq<PermUndo>, bs: Node)
    returns (ok: bool, p': PermMap, tran': seq<PermUndo>)
    requires g.Total(p) && ListsMatch(g, parents, children) && Acyclic(RelOf(g.owner, g.below)) && bs in g.info
    ensures p'.Keys == p.Keys && UndoPerms(p', tran') == UndoPerms(p, tran)
    ensures ok ==> g.Total(p') && RefreshedBelow(g, p', {bs}) && SameElsewhere(g, p, p', {bs})
    ensures ok <==> Solvable(g, p, {bs})
  {
    ok, p', tran' := ListRefreshPerms(g, parents, children, p, tran, [bs]);
    assert Members([bs]) == {bs};
  }

  lemma {:induction false} PropagateKeeps(g: Config, p: PermMap, list: seq<Node>)
    requires g.Total(p)
    ensures var q := g.Propagate(p, list);
            q.Keys == p.Keys && forall e :: e in p && !(g.Decided(e) && g.owner[e] in list) ==> q[e] == p[e]
  {
    if list != [] {
      PropagateKeeps(g, g.SetChildren(p, list[0], g.Cumulative(p, list[0])), list[1..]);
    }
  }

  method RollbackPerms(p: PermMap, tran: seq<PermUndo>) returns (p': PermMap)
    ensures p' == UndoPerms(p, tran)
  {
    p' := p;
    var rest := tran;
    while rest != []
      invariant UndoPerms(p', rest) == UndoPerms(p, tran)
      decreases |rest|
    {
      var u := rest[|rest| - 1];
      p' := p'[u.edge := u.was];
      rest := rest[..|rest| - 1];
    }
  }

  class Graph {
    const g: Config
    const parents: map<Node, seq<Edge>>
    const children: map<Node, seq<Edge>>
    var perms: PermMap

    constructor (g: Config, parents: map<Node, seq<Edge>>, children: map<Node, seq<Edge>>, perms: PermMap)
      requires g.Total(perms) && ListsMatch(g, parents, children) && Acyclic(RelOf(g.owner, g.below))
      ensures this.g == g && this.parents == parents && this.children == children && this.perms == perms && Valid()
    {
      this.g, this.parents, this.children, this.perms := g, parents, children, perms;
    }

    ghost predicate Valid()
      reads this
    {
      g.Total(perms) && ListsMatch(g, parents, children) && Acyclic(RelOf(g.owner, g.below))
    }

    /** `tran_abort`: the recorded permissions come back, last in, first out. */
    method Abort(tran: seq<PermUndo>)
      modifies this`perms
      ensures perms == UndoPerms(old(perms), tran)
    {
      perms := RollbackPerms(perms, tran);
    }

    /** `bdrv_child_try_set_perm`: the new permissions take effect everywhere below, or nothing changes;
        a refused request is reported only if it asked for more or shared less. */
    method ChildTrySetPerm(c: Edge, x: EdgePerm) returns (ok: bool)
      requires Valid() && c in g.below
      modifies this`perms
      ensures Valid()
      ensures Solvable(g, old(perms)[c := x], {g.below[c]}) ==>
                ok && perms[c] == x && RefreshedBelow(g, perms, {g.below[c]})
                    && SameElsewhere(g, old(perms)[c := x], perms, {g.below[c]})
      ensures !Solvable(g, old(perms)[c := x], {g.below[c]}) ==> perms == old(perms) && ok == Looser(x, old(perms)[c])
    {
      var tran := [PermUndo(c, perms[c])];
      SetUndone(perms, c, x, []);
      assert [] + tran == tran;
      perms := perms[c := x];
      ok, perms, tran := RefreshPerms(g, parents, children, perms, tran, g.below[c]);
      if !ok {
        Abort(tran);
        ok := Looser(x, perms[c]);
      }
    }
  }
}
