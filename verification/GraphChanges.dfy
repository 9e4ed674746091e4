/** Changes of the block graph as a whole: links and permissions change together in one transaction, or not at all. */
module GraphChanges {
  import opened Dag
  import opened Options
  import opened BlockGraph
  import opened Permissions
  import Topology

  /** What the changes read but do not change. `accepts` stands for the driver's `bdrv_check_perm`. */
  datatype Nodes = Nodes(info: map<Node, NodeInfo>, accepts: (Node, EdgePerm) -> bool) {
    function Inactive(): set<Node> {
      set n | n in info && info[n].inactive
    }

    function With(l: Topology.Links, role: map<Edge, Role>): Config {
      Config(l.owner, l.below, info, role, accepts)
    }
  }

  /** Every node has its data, every attached edge permissions, and every edge of a node a role. */
  ghost predicate Fitted(v: Nodes, s: Shape, role: map<Edge, Role>, p: PermMap) {
    && v.info.Keys == s.nodes
    && (forall e :: e in s.below ==> e in p) && (forall e :: e in s.owner ==> e in role)
  }

  lemma FittedMatches(v: Nodes, s: Shape, role: map<Edge, Role>, p: PermMap)
    requires Topology.Sound(s) && Fitted(v, s, role, p)
    ensures var g := v.With(Topology.LinksOf(s), role);
            g.Total(p) && ListsMatch(g, s.parents, s.children) && Acyclic(RelOf(g.owner, g.below))
  {
    var g := v.With(Topology.LinksOf(s), role);
    forall n | n in s.nodes ensures UsersOf(g, n, s.parents[n]) {
      forall e ensures e in s.parents[n] <==> e in s.below && s.below[e] == n {
        if e in s.parents[n] {
          var i :| 0 <= i < |s.parents[n]| && s.parents[n][i] == e;
        }
      }
    }
  }

  /** The permissions have been refreshed below `starts`, and are otherwise those of `p`. */
  ghost predicate Refreshed(g: Config, p: PermMap, q: PermMap, starts: set<Node>) {
    g.Total(q) && RefreshedBelow(g, q, starts) && SameElsewhere(g, p, q, starts)
  }

  lemma LinksAcyclic(s: Shape, t: Shape)
    requires Topology.Sound(s) && t.WellFormed() && t.ListsChildren() && Topology.LinksOf(t) == Topology.LinksOf(s)
    ensures Topology.Sound(t)
  {
    assert t.Rel() == s.Rel();
  }

  /** Ends a transaction that began with `s`: with permissions that will do below `starts`, or with all links and
      permissions as they were. */
  method Conclude(v: Nodes, ghost s: Shape, t: Shape, tran: seq<Topology.Undo>, role: map<Edge, Role>, p: PermMap,
      starts: seq<Node>, ghost from: set<Node>, linked: bool)
    returns (ok: bool, t': Shape, p': PermMap)
    requires Topology.Sound(s) && Topology.Sound(t) && Topology.RecordsOk(t.nodes, Topology.LinksOf(t), tran)
    requires Topology.Undone(Topology.LinksOf(t), tran) == Topology.LinksOf(s)
    requires from == Members(starts) && (linked ==> Fitted(v, t, role, p) && forall n :: n in starts ==> n in t.nodes)
    ensures Topology.Sound(t') && t'.nodes == t.nodes && p'.Keys == p.Keys
    ensures ok <==> linked && Solvable(v.With(Topology.LinksOf(t), role), p, from)
    ensures ok ==> t' == t && Refreshed(v.With(Topology.LinksOf(t), role), p, p', from)
    ensures !ok ==> Topology.LinksOf(t') == Topology.LinksOf(s) && p' == p
  {
    ok, t', p' := false, t, p;
    if linked {
      ok, p' := RefreshOrNot(v, t, role, p, starts, from);
    }
    if !ok {
      t' := Topology.Rollback(t, tran);
      LinksAcyclic(s, t');
    }
  }

  method RefreshOrNot(v: Nodes, t: Shape, role: map<Edge, Role>, p: PermMap, starts: seq<Node>, ghost from: set<Node>)
    returns (ok: bool, p': PermMap)
    requires Topology.Sound(t) && Fitted(v, t, role, p)
    requires from == Members(starts) && forall n :: n in starts ==> n in t.nodes
    ensures p'.Keys == p.Keys && (ok <==> Solvable(v.With(Topology.LinksOf(t), role), p, from))
    ensures ok ==> Refreshed(v.With(Topology.LinksOf(t), role), p, p', from)
    ensures !ok ==> p' == p
  {
    FittedMatches(v, t, role, p);
    var undo;
    ok, p', undo := ListRefreshPerms(v.With(Topology.LinksOf(t), role), t.parents, t.children, p, [], starts);
    if !ok {
      p' := RollbackPerms(p', undo);
    }
  }

  /** The graph with the roles and permissions of its edges */
  datatype Layout = Layout(shape: Shape, role: map<Edge, Role>, perms: PermMap) {
    function Links(): Topology.Links {
      Topology.LinksOf(shape)
    }

    ghost predicate Sound(v: Nodes) {
      Topology.Sound(shape) && Fitted(v, shape, role, perms)
    }

    /** Everything is as it was; only the order of the lists may differ. */
    ghost predicate Like(b: Layout) {
      Links() == b.Links() && role == b.role && perms == b.perms
    }
  }

  /** What a transaction leaves behind when it is committed or aborted */
  datatype Outcome = Committed(layout: Layout) | Aborted(layout: Layout)

  // ---- bdrv_replace_node_common ----

  /** Replacing is refused exactly if a user must not move or no permissions below the two nodes would do; then
      nothing changes. */
  ghost predicate Replaced(v: Nodes, b: Layout, pinned: set<Edge>, frozen: set<Edge>, from: Node, to: Node,
      autoSkip: bool, d: Option<Edge>, o: Outcome) {
    var l := Topology.ReplacedLinks(b.Links(), pinned, from, to, d);
    var g := v.With(l, b.role);
    var allowed := Topology.MayReplace(b.shape, pinned, frozen, from, to, autoSkip) && Solvable(g, b.perms, {from, to});
    match o
    case Aborted(b') => !allowed && b'.Like(b)
    case Committed(b') =>
      && allowed && b'.Links() == (if d.Some? then Topology.DroppedLinks(l, d.value) else l) && b'.role == b.role
      && Refreshed(g, b.perms, b'.perms, {from, to})
  }

  lemma ReplacedFitted(v: Nodes, s: Shape, t: Shape, role: map<Edge, Role>, p: PermMap, pinned: set<Edge>, from: Node,
      to: Node, d: Option<Edge>)
    requires Fitted(v, s, role, p) && t.nodes == s.nodes
    requires Topology.LinksOf(t) == Topology.ReplacedLinks(Topology.LinksOf(s), pinned, from, to, d)
    ensures Fitted(v, t, role, p)
  {
  }

  lemma ReplacedHolds(v: Nodes, b: Layout, pinned: set<Edge>, frozen: set<Edge>, from: Node, to: Node, autoSkip: bool,
      d: Option<Edge>, linked: bool, u: Topology.Links, o: Outcome)
    requires linked <==> Topology.MayReplace(b.shape, pinned, frozen, from, to, autoSkip)
    requires linked ==> u == Topology.ReplacedLinks(b.Links(), pinned, from, to, d)
    requires o.Committed? <==> linked && Solvable(v.With(u, b.role), b.perms, {from, to})
    requires o.Committed? ==>
               && o.layout.Links() == (if d.Some? then Topology.DroppedLinks(u, d.value) else u)
               && o.layout.role == b.role
               && Refreshed(v.With(u, b.role), b.perms, o.layout.perms, {from, to})
    requires o.Aborted? ==> o.layout.Like(b)
    ensures Replaced(v, b, pinned, frozen, from, to, autoSkip, d, o)
  {
  }

  method PrepareReplace(v: Nodes, b: Layout, pinned: set<Edge>, frozen: set<Edge>, from: Node, to: Node, autoSkip: bool,
      d: Option<Edge>)
    returns (linked: bool, u: Shape, tran: seq<Topology.Undo>)
    requires b.Sound(v) && from in b.shape.nodes && to in b.shape.nodes && from != to
    requires d.Some? ==> d.value in b.shape.below && b.shape.below[d.value] == to
    ensures Topology.Sound(u) && u.nodes == b.shape.nodes && Topology.RecordsOk(u.nodes, Topology.LinksOf(u), tran)
    ensures Topology.Undone(Topology.LinksOf(u), tran) == b.Links()
    ensures linked <==> Topology.MayReplace(b.shape, pinned, frozen, from, to, autoSkip)
    ensures linked ==> Fitted(v, u, b.role, b.perms) && (d.Some? ==> d.value !in u.below)
    ensures linked ==> Topology.LinksOf(u) == Topology.ReplacedLinks(b.Links(), pinned, from, to, d)
  {
    linked, u, tran := Topology.TryReplace(b.shape, pinned, frozen, from, to, autoSkip, d);
    if linked {
      ReplacedFitted(v, b.shape, u, b.role, b.perms, pinned, from, to, d);
    }
  }

  /** `bdrv_replace_node_common`, of which `d` is the edge that `detach_subchain` takes away */
  method ReplaceNode(v: Nodes, b: Layout, pinned: set<Edge>, frozen: set<Edge>, from: Node, to: Node, autoSkip: bool,
      d: Option<Edge>)
    returns (o: Outcome)
    requires b.Sound(v) && from in b.shape.nodes && to in b.shape.nodes && from != to
    requires d.Some? ==> d.value in b.shape.below && b.shape.below[d.value] == to
    ensures o.layout.Sound(v) && o.layout.shape.nodes == b.shape.nodes
    ensures Replaced(v, b, pinned, frozen, from, to, autoSkip, d, o)
  {
    var linked, u, tran := PrepareReplace(v, b, pinned, frozen, from, to, autoSkip, d);
    o := FinishReplace(v, b, u, tran, from, to, d, linked);
    ReplacedHolds(v, b, pinned, frozen, from, to, autoSkip, d, linked, Topology.LinksOf(u), o);
  }

  method FinishReplace(v: Nodes, b: Layout, u: Shape, tran: seq<Topology.Undo>, from: Node, to: Node, d: Option<Edge>,
      linked: bool)
    returns (o: Outcome)
    requires b.Sound(v) && from in b.shape.nodes && to in b.shape.nodes
    requires Topology.Sound(u) && u.nodes == b.shape.nodes && Topology.RecordsOk(u.nodes, Topology.LinksOf(u), tran)
    requires Topology.Undone(Topology.LinksOf(u), tran) == b.Links()
    requires linked ==> Fitted(v, u, b.role, b.perms) && (d.Some? ==> d.value !in u.below)
    ensures o.layout.Sound(v) && o.layout.shape.nodes == b.shape.nodes
    ensures var l := Topology.LinksOf(u);
            && (o.Committed? <==> linked && Solvable(v.With(l, b.role), b.perms, {from, to}))
            && (o.Committed? ==>
                  && o.layout.Links() == (if d.Some? then Topology.DroppedLinks(l, d.value) else l)
                  && o.layout.role == b.role && Refreshed(v.With(l, b.role), b.perms, o.layout.perms, {from, to}))
            && (o.Aborted? ==> o.layout.Like(b))
  {
    assert Members([from, to]) == {from, to};
    var ok, t, p := Conclude(v, b.shape, u, tran, b.role, b.perms, [from, to], {from, to}, linked);
    if ok {
      o := CommitReplace(v, u, b.role, p, d);
    } else {
      o := Aborted(Layout(t, b.role, p));
    }
  }

  method CommitReplace(v: Nodes, t: Shape, role: map<Edge, Role>, p: PermMap, d: Option<Edge>) returns (o: Outcome)
    requires Topology.Sound(t) && Fitted(v, t, role, p) && (d.Some? ==> d.value !in t.below)
    ensures o.Committed? && o.layout.Sound(v) && o.layout.shape.nodes == t.nodes
    ensures o.layout.role == role && o.layout.perms == p
    ensures var l := Topology.LinksOf(t); o.layout.Links() == if d.Some? then Topology.DroppedLinks(l, d.value) else l
  {
    var s := t;
    if d.Some? {
      s := Topology.DropChild(t, d.value);
    }
    o := Committed(Layout(s, role, p));
  }

  // ---- bdrv_append ----

  /** What the policy of `bsNew` gives its new edge to `top` */
  ghost function NewPerm(v: Nodes, b: Layout, r: Role, bsNew: Node, top: Node): EdgePerm
    requires bsNew in v.info && top in v.info
  {
    ChildPerm(v.info[bsNew], r, v.info[top].forceShare, v.With(b.Links(), b.role).Cumulative(b.perms, bsNew))
  }

  /** A new edge asks for more than an inactive node can give. */
  predicate Unavailable(v: Nodes, top: Node, x: EdgePerm)
    requires top in v.info
  {
    v.info[top].inactive && !(x.perm <= {ConsistentRead})
  }

  /** Appending is refused exactly if the links do not allow it, the new edge asks too much of an inactive node, or no
      permissions below the new node would do; then nothing changes. */
  ghost predicate Appended(v: Nodes, b: Layout, pinned: set<Edge>, frozen: set<Edge>, c: Edge, r: Role, bsNew: Node,
      top: Node, o: Outcome)
    requires bsNew in v.info && top in v.info && top in b.shape.nodes && top in b.shape.parents
  {
    var x := NewPerm(v, b, r, bsNew, top);
    var l := Topology.AppendedLinks(b.Links(), pinned, c, bsNew, top);
    var g := v.With(l, b.role[c := r]);
    var allowed := Topology.MayAppend(b.shape, v.Inactive(), pinned, frozen, c, bsNew, top) && !Unavailable(v, top, x)
                   && Solvable(g, b.perms[c := x], {bsNew});
    match o
    case Aborted(b') => !allowed && b'.Like(b)
    case Committed(b') =>
      && allowed && b'.Links() == l && b'.role == b.role[c := r]
      && Refreshed(g, b.perms[c := x], b'.perms, {bsNew})
  }

  lemma AppendedFitted(v: Nodes, s: Shape, t: Shape, role: map<Edge, Role>, p: PermMap, pinned: set<Edge>, c: Edge,
      bsNew: Node, top: Node, r: Role, x: EdgePerm)
    requires Fitted(v, s, role, p) && t.nodes == s.nodes
    requires Topology.LinksOf(t) == Topology.AppendedLinks(Topology.LinksOf(s), pinned, c, bsNew, top)
    ensures Fitted(v, t, role[c := r], p[c := x])
  {
  }

  method GetNewPerm(v: Nodes, b: Layout, r: Role, bsNew: Node, top: Node) returns (x: EdgePerm)
    requires b.Sound(v) && bsNew in b.shape.nodes && top in b.shape.nodes
    ensures x == NewPerm(v, b, r, bsNew, top)
  {
    FittedMatches(v, b.shape, b.role, b.perms);
    var c := GetCumulativePerm(v.With(b.Links(), b.role), b.perms, bsNew, b.shape.parents[bsNew]);
    x := ChildPerm(v.info[bsNew], r, v.info[top].forceShare, c);
  }

  lemma AppendedHolds(v: Nodes, b: Layout, pinned: set<Edge>, frozen: set<Edge>, c: Edge, r: Role, bsNew: Node,
      top: Node, x: EdgePerm, linked: bool, u: Topology.Links, o: Outcome)
    requires bsNew in v.info && top in v.info && top in b.shape.nodes && top in b.shape.parents
    requires x == NewPerm(v, b, r, bsNew, top)
    requires linked <==> Topology.MayAppend(b.shape, v.Inactive(), pinned, frozen, c, bsNew, top)
                         && !Unavailable(v, top, x)
    requires linked ==> u == Topology.AppendedLinks(b.Links(), pinned, c, bsNew, top)
    requires var g := v.With(u, b.role[c := r]);
             && (o.Committed? <==> linked && Solvable(g, b.perms[c := x], {bsNew}))
             && (o.Committed? ==> o.layout.Links() == u && o.layout.role == b.role[c := r]
                                  && Refreshed(g, b.perms[c := x], o.layout.perms, {bsNew}))
             && (o.Aborted? ==> o.layout.Like(b))
    ensures Appended(v, b, pinned, frozen, c, r, bsNew, top, o)
  {
  }

  method PrepareAppend(v: Nodes, b: Layout, pinned: set<Edge>, frozen: set<Edge>, c: Edge, r: Role, bsNew: Node,
      top: Node, x: EdgePerm)
    returns (linked: bool, u: Shape, tran: seq<Topology.Undo>)
    requires b.Sound(v) && c !in b.shape.edges && bsNew in b.shape.nodes && top in b.shape.nodes && bsNew != top
    ensures Topology.Sound(u) && u.nodes == b.shape.nodes && Topology.RecordsOk(u.nodes, Topology.LinksOf(u), tran)
    ensures Topology.Undone(Topology.LinksOf(u), tran) == b.Links()
    ensures linked <==> Topology.MayAppend(b.shape, v.Inactive(), pinned, frozen, c, bsNew, top)
                        && !Unavailable(v, top, x)
    ensures linked ==> Fitted(v, u, b.role[c := r], b.perms[c := x])
    ensures linked ==> Topology.LinksOf(u) == Topology.AppendedLinks(b.Links(), pinned, c, bsNew, top)
  {
    linked, u, tran := Topology.TryAppend(b.shape, v.Inactive(), Unavailable(v, top, x), pinned, frozen, c, bsNew, top);
    if linked {
      AppendedFitted(v, b.shape, u, b.role, b.perms, pinned, c, bsNew, top, r, x);
    }
  }

  lemma NewEdgeGone(p: PermMap, c: Edge, x: EdgePerm)
    requires c !in p
    ensures p[c := x] - {c} == p
  {
  }

  method FinishAppend(v: Nodes, b: Layout, u: Shape, tran: seq<Topology.Undo>, c: Edge, r: Role, bsNew: Node,
      x: EdgePerm, linked: bool)
    returns (o: Outcome)
    requires b.Sound(v) && bsNew in b.shape.nodes && c !in b.perms
    requires Topology.Sound(u) && u.nodes == b.shape.nodes && Topology.RecordsOk(u.nodes, Topology.LinksOf(u), tran)
    requires Topology.Undone(Topology.LinksOf(u), tran) == b.Links()
    requires linked ==> Fitted(v, u, b.role[c := r], b.perms[c := x])
    ensures o.layout.Sound(v) && o.layout.shape.nodes == b.shape.nodes
    ensures var g := v.With(Topology.LinksOf(u), b.role[c := r]);
            && (o.Committed? <==> linked && Solvable(g, b.perms[c := x], {bsNew}))
            && (o.Committed? ==> o.layout.Links() == Topology.LinksOf(u) && o.layout.role == b.role[c := r]
                                 && Refreshed(g, b.perms[c := x], o.layout.perms, {bsNew}))
            && (o.Aborted? ==> o.layout.Like(b))
  {
    assert Members([bsNew]) == {bsNew};
    var ok, t, p := Conclude(v, b.shape, u, tran, b.role[c := r], b.perms[c := x], [bsNew], {bsNew}, linked);
    if ok {
      o := Committed(Layout(t, b.role[c := r], p));
    } else {
      NewEdgeGone(b.perms, c, x);
      o := Aborted(Layout(t, b.role, p - {c}));
    }
  }

  /** `bdrv_append` */
  method AppendNode(v: Nodes, b: Layout, pinned: set<Edge>, frozen: set<Edge>, c: Edge, r: Role, bsNew: Node, top: Node)
    returns (o: Outcome)
    requires b.Sound(v) && c !in b.shape.edges && c !in b.perms
    requires bsNew in b.shape.nodes && top in b.shape.nodes && bsNew != top
    ensures o.layout.Sound(v) && o.layout.shape.nodes == b.shape.nodes
    ensures Appended(v, b, pinned, frozen, c, r, bsNew, top, o)
  {
    var x := GetNewPerm(v, b, r, bsNew, top);
    var linked, u, tran := PrepareAppend(v, b, pinned, frozen, c, r, bsNew, top, x);
    o := FinishAppend(v, b, u, tran, c, r, bsNew, x, linked);
    AppendedHolds(v, b, pinned, frozen, c, r, bsNew, top, x, linked, Topology.LinksOf(u), o);
  }

  class Tree {
    const v: Nodes
    var layout: Layout
    var frozen: set<Edge>
    var pinned: set<Edge>
    var cowChild: map<Node, Edge> // bdrv_filter_or_cow_child

    constructor (v: Nodes, layout: Layout, frozen: set<Edge>, pinned: set<Edge>, cowChild: map<Node, Edge>)
      requires layout.Sound(v)
      ensures this.v == v && this.layout == layout && layout.Sound(v)
      ensures this.frozen == frozen && this.pinned == pinned && this.cowChild == cowChild
    {
      this.v, this.layout, this.frozen, this.pinned, this.cowChild := v, layout, frozen, pinned, cowChild;
    }

    /** `bdrv_replace_node_common`: the users of `from` move to `to` and permissions are refreshed below both, or
        nothing changes. With `detachSubchain` the chain from `from` down to `to` is cut off above `to`. */
    method ReplaceNodeCommon(from: Node, to: Node, autoSkip: bool, detachSubchain: bool, ghost k: nat)
        returns (ok: bool)
      requires layout.Sound(v) && from in layout.shape.nodes && to in layout.shape.nodes && from != to
      requires detachSubchain ==> Topology.OnChain(layout.shape.below, cowChild, from, to, k)
      modifies this`layout
      ensures layout.Sound(v) && layout.shape.nodes == old(layout).shape.nodes
      ensures var d := if detachSubchain then Some(Topology.CowEdge(old(layout).shape.below, cowChild, from, to, k))
                       else None;
              Replaced(v, old(layout), pinned, frozen, from, to, autoSkip, d,
                       if ok then Committed(layout) else Aborted(layout))
    {
      var d: Option<Edge> := None;
      if detachSubchain {
        var e := Topology.FindCowEdge(layout.shape.below, cowChild, from, to, k);
        d := Some(e);
      }
      var o := ReplaceNode(v, layout, pinned, frozen, from, to, autoSkip, d);
      layout, ok := o.layout, o.Committed?;
    }

    /** `bdrv_append`: `bsNew` goes on top of `top`, takes over its users, and permissions are refreshed below it, or
        nothing changes. */
    method Append(c: Edge, r: Role, bsNew: Node, top: Node) returns (ok: bool)
      requires layout.Sound(v) && c !in layout.shape.edges && c !in layout.perms
      requires bsNew in layout.shape.nodes && top in layout.shape.nodes && bsNew != top
      modifies this`layout
      ensures layout.Sound(v) && layout.shape.nodes == old(layout).shape.nodes
      ensures Appended(v, old(layout), pinned, frozen, c, r, bsNew, top,
                       if ok then Committed(layout) else Aborted(layout))
    {
      var o := AppendNode(v, layout, pinned, frozen, c, r, bsNew, top);
      layout, ok := o.layout, o.Committed?;
    }
  }
}
