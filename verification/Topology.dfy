/** Changing the shape of the block graph: the cycle check of attach, the link filter of node
    replacement, and the transaction that undoes both. */
module Topology {
  import opened Dag
  import opened Options
  import opened BlockGraph
  import opened IdLists

  /** `bdrv_recurse_has_child`: decides reachability, and terminates because the graph has no cycle. */
  method RecurseHasChild(children: map<Node, seq<Edge>>, below: map<Edge, Node>, ghost r: Rel, bs: Node, child: Node)
      returns (found: bool)
    requires Spells(children, below, r) && Acyclic(r) && bs in children
    ensures found <==> Reach(r, bs, child)
    decreases Height(r, bs)
  {
    if bs == child {
      ReachSelf(r, bs);
      return true;
    }
    var list := children[bs];
    var i := 0;
    while i < |list|
      invariant 0 <= i <= |list|
      invariant forall j :: 0 <= j < i ==> list[j] in below && !Reach(r, below[list[j]], child)
    {
      var b := below[list[i]];
      HeightDecreases(r, bs, b);
      var sub := RecurseHasChild(children, below, r, b, child);
      if sub {
        ReachEdge(r, bs, b, child);
        return true;
      }
      i := i + 1;
    }
    NoChildLeads(children, below, r, bs, child);
    return false;
  }

  lemma NoChildLeads(children: map<Node, seq<Edge>>, below: map<Edge, Node>, r: Rel, bs: Node, child: Node)
    requires Spells(children, below, r) && bs in children && bs != child
    requires forall j :: 0 <= j < |children[bs]|
               ==> children[bs][j] in below && !Reach(r, below[children[bs][j]], child)
    ensures !Reach(r, bs, child)
  {
    if Reach(r, bs, child) {
      var b := ReachFirst(r, bs, child);
    }
  }

  /** The walk has put every child of every expanded node into `found` without meeting edge `c`. */
  ghost predicate Expanded(children: map<Node, seq<Edge>>, below: map<Edge, Node>, done: set<Node>, found: set<Node>,
      c: Edge) {
    forall n, i :: n in done && n in children && 0 <= i < |children[n]| ==>
      children[n][i] != c && children[n][i] in below && below[children[n][i]] in found
  }

  lemma {:induction false} ClosedPath(children: map<Node, seq<Edge>>, below: map<Edge, Node>, r: Rel, found: set<Node>,
      c: Edge, p: seq<Node>, a: Node, b: Node)
    requires Spells(children, below, r) && a in found && Expanded(children, below, found, found, c)
             && IsPath(r, p, a, b)
    ensures b in found
    decreases |p|
  {
    if |p| > 1 {
      assert (p[0], p[0 + 1]) in r;
      assert HasChild(children, below, p[0], p[1]);
      assert IsPath(r, p[1..], p[1], b) by {
        forall i | 0 <= i < |p[1..]| - 1 ensures (p[1..][i], p[1..][i + 1]) in r {
          assert (p[i + 1], p[i + 1 + 1]) in r;
        }
      }
      ClosedPath(children, below, r, found, c, p[1..], p[1], b);
    }
  }

  /** Whether node `to` leads to a node whose children list holds edge `c`. */
  ghost predicate LeadsToEdge(children: map<Node, seq<Edge>>, r: Rel, to: Node, c: Edge) {
    exists n :: n in children && c in children[n] && Reach(r, to, n)
  }

  /** `should_update_child`: the breadth-first walk refuses exactly the pinned edges and those owned below `to`. */
  method ShouldUpdateChild(children: map<Node, seq<Edge>>, below: map<Edge, Node>, ghost r: Rel, c: Edge, to: Node,
      stayAtNode: bool) returns (ok: bool)
    requires Spells(children, below, r) && to in children
    ensures ok <==> !stayAtNode && !LeadsToEdge(children, r, to, c)
  {
    if stayAtNode {
      return false;
    }
    ReachSelf(r, to);
    ok := true;
    var found, queue := {to}, [to];
    ghost var done: set<Node> := {};
    while queue != []
      invariant to in found && found <= children.Keys
      invariant forall n :: n in queue ==> n in found
      invariant forall n :: n in found ==> Reach(r, to, n) && (n in done || n in queue)
      invariant ok ==> Expanded(children, below, done, found, c)
      invariant !ok ==> LeadsToEdge(children, r, to, c)
      decreases |children.Keys - found|, |queue|
    {
      var v, rest := queue[0], queue[1..];
      assert forall n :: n in queue <==> n == v || n in rest;
      var met;
      ghost var found0 := found;
      met, found, queue := ExpandNode(children, below, r, c, to, v, found, rest);
      if met {
        ok := false;
      }
      done := done + {v};
    }
    if ok {
      NotReached(children, below, r, found, c, to, done);
    }
  }

  lemma NotReached(children: map<Node, seq<Edge>>, below: map<Edge, Node>, r: Rel, found: set<Node>, c: Edge, to: Node,
      done: set<Node>)
    requires Spells(children, below, r) && to in found && found <= done && Expanded(children, below, done, found, c)
    ensures !LeadsToEdge(children, r, to, c)
  {
    forall n | n in children && Reach(r, to, n) ensures c !in children[n] {
      var p :| IsPath(r, p, to, n);
      ClosedPath(children, below, r, found, c, p, to, n);
    }
  }

  /** One pass of the walk: the children of `v` that are new join the queue; meeting `c` ends the pass. */
  method ExpandNode(children: map<Node, seq<Edge>>, below: map<Edge, Node>, ghost r: Rel, c: Edge, ghost to: Node,
      v: Node, found0: set<Node>, queue0: seq<Node>)
    returns (met: bool, found: set<Node>, queue: seq<Node>)
    requires Spells(children, below, r) && v in children && Reach(r, to, v) && found0 <= children.Keys
    ensures found0 <= found <= children.Keys
    ensures forall n :: n in queue <==> n in queue0 || (n in found && n !in found0)
    ensures forall n :: n in found && n !in found0 ==> Reach(r, to, n)
    ensures met ==> c in children[v]
    ensures !met ==> forall i :: 0 <= i < |children[v]| ==> children[v][i] != c && below[children[v][i]] in found
    ensures |children.Keys - found| < |children.Keys - found0| || (found == found0 && queue == queue0)
  {
    met, found, queue := false, found0, queue0;
    var list := children[v];
    var i := 0;
    while i < |list|
      invariant 0 <= i <= |list|
      invariant found0 <= found <= children.Keys
      invariant forall n :: n in queue <==> n in queue0 || (n in found && n !in found0)
      invariant forall n :: n in found && n !in found0 ==> Reach(r, to, n)
      invariant forall j :: 0 <= j < i ==> list[j] != c && below[list[j]] in found
      invariant |children.Keys - found| < |children.Keys - found0| || (found == found0 && queue == queue0)
    {
      if list[i] == c {
        met := true;
        return;
      }
      var n := below[list[i]];
      if n !in found {
        ReachChild(r, to, v, n);
        Shrinks(children.Keys, found, n);
        found, queue := found + {n}, queue + [n];
      }
      i := i + 1;
    }
  }

  lemma ReachChild(r: Rel, to: Node, v: Node, n: Node)
    requires Reach(r, to, v) && (v, n) in r
    ensures Reach(r, to, n)
  {
    ReachSelf(r, n);
    ReachEdge(r, v, n, n);
    ReachTrans(r, to, v, n);
  }

  lemma Shrinks(nodes: set<Node>, found: set<Node>, n: Node)
    requires n in nodes && n !in found
    ensures |nodes - (found + {n})| < |nodes - found|
  {
    assert nodes - found == (nodes - (found + {n})) + {n};
  }

  /** What leads on from `to` is untouched by edges that leave a node `to` does not lead to. */
  lemma {:induction false} PathUnaffected(r: Rel, r': Rel, to: Node, p: Node, path: seq<Node>, n: Node)
    requires IsPath(r, path, to, n) && !Reach(r, to, p)
    requires forall e :: e in r && e.0 != p ==> e in r'
    ensures Reach(r', to, n)
    decreases |path|
  {
    ReachSelf(r, to);
    if |path| == 1 {
      ReachSelf(r', to);
    } else {
      assert (path[0], path[0 + 1]) in r;
      assert IsPath(r, path[1..], path[1], n) by {
        forall i | 0 <= i < |path[1..]| - 1 ensures (path[1..][i], path[1..][i + 1]) in r {
          assert (path[i + 1], path[i + 1 + 1]) in r;
        }
      }
      if Reach(r, path[1], p) { ReachEdge(r, to, path[1], p); }
      PathUnaffected(r, r', path[1], p, path[1..], n);
      ReachEdge(r', to, path[1], n);
    }
  }

  lemma ReachUnaffected(r: Rel, r': Rel, to: Node, p: Node, n: Node)
    requires !Reach(r, to, p) && Reach(r, to, n)
    requires forall e :: e in r && e.0 != p ==> e in r'
    ensures Reach(r', to, n)
  {
    var path :| IsPath(r, path, to, n);
    PathUnaffected(r, r', to, p, path, n);
  }

  lemma BelowIff(r: Rel, a: Node, b: Node)
    ensures b in Below(r, a) <==> Reach(r, a, b)
  {
    if Reach(r, a, b) {
      ReachNodes(r, a, b);
    }
  }

  /** The owner of edge `c` lies below node `to`. */
  ghost predicate OwnedBelow(s: Shape, c: Edge, to: Node) {
    c in s.owner && s.owner[c] in Below(s.Rel(), to)
  }

  lemma LeadsToEdgeOwned(s: Shape, c: Edge, to: Node)
    requires s.WellFormed() && s.ListsChildren() && c in s.below
    ensures LeadsToEdge(s.children, s.Rel(), to, c) <==> OwnedBelow(s, c, to)
  {
    if c in s.owner {
      BelowIff(s.Rel(), to, s.owner[c]);
      assert c in s.children[s.owner[c]];
    }
  }

  lemma RelinkedRel(s: Shape, c: Edge, to: Node)
    requires c in s.owner
    ensures var r, r' := s.Rel(), Relinked(s, c, Some(to)).Rel();
            && r' <= r + {(s.owner[c], to)} && (s.owner[c], to) in r'
            && (forall e :: e in r && e.0 != s.owner[c] ==> e in r')
            && (forall e :: e in r' && e.0 != s.owner[c] ==> e in r)
  {
    var t := Relinked(s, c, Some(to));
    assert c in t.owner && c in t.below && t.below[c] == to;
    forall e | e in s.Rel() && e.0 != s.owner[c] ensures e in t.Rel() {
      var x :| x in s.owner && x in s.below && (s.owner[x], s.below[x]) == e;
      assert x in t.below && t.below[x] == s.below[x];
    }
    forall e | e in t.Rel() && e !in s.Rel() ensures e == (s.owner[c], to) {
      var x :| x in t.owner && x in t.below && (t.owner[x], t.below[x]) == e;
      assert x == c;
    }
  }

  /** The link filter is exact: moving an edge to `to` keeps the graph acyclic exactly when its owner is
      not below `to`, and then what lies below `to` does not change. */
  lemma RetargetAcyclic(s: Shape, c: Edge, to: Node)
    requires Acyclic(s.Rel())
    ensures Acyclic(Relinked(s, c, Some(to)).Rel()) <==> !OwnedBelow(s, c, to)
    ensures !OwnedBelow(s, c, to) ==> Below(Relinked(s, c, Some(to)).Rel(), to) == Below(s.Rel(), to)
  {
    var t := Relinked(s, c, Some(to));
    if c !in s.owner {
      assert t.Rel() == s.Rel();
    } else {
      var p, r, r' := s.owner[c], s.Rel(), t.Rel();
      RelinkedRel(s, c, to);
      AddEdgeAcyclic(r, p, to);
      BelowIff(r, to, p);
      if Reach(r, to, p) {
        ReachAvoids(r, r', to, p);
      } else {
        AcyclicSubset(r', r + {(p, to)});
        forall n ensures n in Below(r, to) <==> n in Below(r', to) {
          BelowIff(r, to, n);
          BelowIff(r', to, n);
          if Reach(r, to, n) { ReachUnaffected(r, r', to, p, n); }
          if Reach(r', to, n) { ReachUnaffected(r', r, to, p, n); }
        }
      }
    }
  }

  /** Which edges exist, which node each belongs to and where it leads. */
  datatype Links = Links(edges: seq<Edge>, owner: map<Edge, Node>, below: map<Edge, Node>)

  function LinksOf(s: Shape): Links {
    Links(s.edges, s.owner, s.below)
  }

  /** One more edge, owned by `p` and leading to `bs`. */
  function AddLink(l: Links, c: Edge, p: Node, bs: Node): Links {
    Links([c] + l.edges, l.owner[c := p], l.below[c := bs])
  }

  /** Every edge to `from` leads to `to` instead, except pinned ones and those owned below `to`; no other edge
      changed. */
  ghost predicate MovedAll(l: Links, l': Links, pinned: set<Edge>, from: Node, to: Node) {
    && l'.edges == l.edges && l'.owner == l.owner && l'.below.Keys == l.below.Keys
    && (forall e :: e in l.below ==> l'.below[e] == MovedTarget(l, pinned, from, to, e))
  }

  ghost function MovedTarget(l: Links, pinned: set<Edge>, from: Node, to: Node, e: Edge): Node
    requires e in l.below
  {
    if l.below[e] == from && e !in pinned
       && !(e in l.owner && l.owner[e] in Below(RelOf(l.owner, l.below), to)) then to else l.below[e]
  }

  /** The same as a function */
  ghost function MovedLinks(l: Links, pinned: set<Edge>, from: Node, to: Node): Links {
    l.(below := map e | e in l.below :: MovedTarget(l, pinned, from, to, e))
  }

  lemma MovedIs(l: Links, l': Links, pinned: set<Edge>, from: Node, to: Node)
    requires MovedAll(l, l', pinned, from, to)
    ensures l' == MovedLinks(l, pinned, from, to)
  {
  }

  /** Undo records of a transaction; they are replayed last in, first out. */
  datatype Undo = MovedFrom(edge: Edge, was: Node) | Added(edge: Edge)

  function UndoOne(l: Links, u: Undo): Links {
    match u
    case MovedFrom(e, was) => l.(below := l.below[e := was])
    case Added(e) => Links(Without(l.edges, e), l.owner - {e}, l.below - {e})
  }

  function Undone(l: Links, tran: seq<Undo>): Links
    decreases |tran|
  {
    if tran == [] then l else Undone(UndoOne(l, tran[|tran| - 1]), tran[..|tran| - 1])
  }

  /** Every record names an edge that exists when it is undone, and a node. */
  ghost predicate RecordsOk(nodes: set<Node>, l: Links, tran: seq<Undo>)
    decreases |tran|
  {
    tran == [] || (
      var u := tran[|tran| - 1];
      u.edge in l.edges && (u.MovedFrom? ==> u.was in nodes) && RecordsOk(nodes, UndoOne(l, u), tran[..|tran| - 1]))
  }

  lemma RecordsExtend(nodes: set<Node>, l: Links, l': Links, tran: seq<Undo>, u: Undo)
    requires RecordsOk(nodes, l, tran) && UndoOne(l', u) == l && u.edge in l'.edges && (u.MovedFrom? ==> u.was in nodes)
    ensures RecordsOk(nodes, l', tran + [u])
  {
    assert (tran + [u])[..|tran|] == tran;
  }

  /** An edge detached and freed: `bdrv_replace_child_noperm` with NULL, then `bdrv_child_free`. */
  function UndoShape(s: Shape, u: Undo): Shape {
    match u
    case MovedFrom(c, was) => Relinked(s, c, Some(was))
    case Added(c) => Dropped(Relinked(s, c, None), c)
  }

  function Dropped(s: Shape, c: Edge): Shape {
    s.(edges := Without(s.edges, c), owner := s.owner - {c})
  }

  lemma DroppedOk(s: Shape, c: Edge)
    requires s.WellFormed() && s.ListsChildren() && c !in s.below
    ensures Dropped(s, c).WellFormed() && Dropped(s, c).ListsChildren()
  {
    WithoutList(s.edges, c);
  }

  lemma UndoShapeOk(s: Shape, u: Undo)
    requires s.WellFormed() && s.ListsChildren() && u.edge in s.edges && (u.MovedFrom? ==> u.was in s.nodes)
    ensures UndoShape(s, u).WellFormed() && UndoShape(s, u).ListsChildren()
    ensures LinksOf(UndoShape(s, u)) == UndoOne(LinksOf(s), u) && UndoShape(s, u).nodes == s.nodes
  {
    var bs := if u.MovedFrom? then Some(u.was) else None;
    RelinkedWellFormed(s, u.edge, bs);
    RelinkedChildren(s, u.edge, bs);
    if u.Added? {
      DroppedOk(Relinked(s, u.edge, None), u.edge);
    }
  }

  /** Recording the inverse of a change leaves the state that an abort would restore as it was. */
  lemma UndoneExtend(l: Links, l': Links, tran: seq<Undo>, u: Undo)
    requires UndoOne(l', u) == l
    ensures Undone(l', tran + [u]) == Undone(l, tran)
  {
    assert (tran + [u])[..|tran|] == tran;
  }

  /** Lists that match the edges, and no cycle. */
  ghost predicate Sound(s: Shape) {
    s.WellFormed() && s.ListsChildren() && Acyclic(s.Rel())
  }

  lemma RelinkStep(s: Shape, t: Shape, c: Edge, to: Node)
    requires Sound(s) && c in s.below && to in s.nodes && !OwnedBelow(s, c, to) && t == Relinked(s, c, Some(to))
    ensures Sound(t) && t.owner == s.owner && t.nodes == s.nodes && t.edges == s.edges && t.below == s.below[c := to]
    ensures Below(t.Rel(), to) == Below(s.Rel(), to)
  {
    RelinkedWellFormed(s, c, Some(to));
    RelinkedChildren(s, c, Some(to));
    RetargetAcyclic(s, c, to);
  }

  lemma MoveUndone(nodes: set<Node>, l: Links, c: Edge, to: Node, tran: seq<Undo>)
    requires c in l.below
    requires RecordsOk(nodes, l, tran) && c in l.edges && l.below[c] in nodes
    ensures Undone(l.(below := l.below[c := to]), tran + [MovedFrom(c, l.below[c])]) == Undone(l, tran)
    ensures RecordsOk(nodes, l.(below := l.below[c := to]), tran + [MovedFrom(c, l.below[c])])
  {
    assert l.below[c := to][c := l.below[c]] == l.below;
    RecordsExtend(nodes, l, l.(below := l.below[c := to]), tran, MovedFrom(c, l.below[c]));
    UndoneExtend(l, l.(below := l.below[c := to]), tran, MovedFrom(c, l.below[c]));
  }

  /** The edges that may leave their node for one that leads to the nodes `under`. */
  ghost predicate Movable(owner: map<Edge, Node>, under: set<Node>, pinned: set<Edge>, c: Edge) {
    c !in pinned && !(c in owner && owner[c] in under)
  }

  /** Where every edge leads once the first `i` parents of `from` were visited. */
  ghost predicate MovedUpto(s: Shape, t: Shape, under: set<Node>, pinned: set<Edge>, from: Node, to: Node, i: nat)
    requires from in s.parents
  {
    && t.nodes == s.nodes && t.edges == s.edges && t.owner == s.owner && t.below.Keys == s.below.Keys
    && (forall e :: e in s.below && s.below[e] != from ==> t.below[e] == s.below[e])
    && (forall j :: 0 <= j < |s.parents[from]| && s.parents[from][j] in s.below ==>
          t.below[s.parents[from][j]] == if j < i
              && Movable(s.owner, under, pinned, s.parents[from][j]) then to else from)
  }

  ghost predicate MoveAllowed(owner: map<Edge, Node>, under: set<Node>, pinned: set<Edge>, frozen: set<Edge>, c: Edge,
      autoSkip: bool) {
    if Movable(owner, under, pinned, c) then c !in frozen else autoSkip
  }

  lemma MovedUptoAll(s: Shape, t: Shape, under: set<Node>, pinned: set<Edge>, from: Node, to: Node)
    requires s.WellFormed() && from in s.nodes && MovedUpto(s, t, under, pinned, from, to, |s.parents[from]|)
    requires under == Below(s.Rel(), to)
    ensures MovedAll(LinksOf(s), LinksOf(t), pinned, from, to)
  {
    forall e | e in s.below && s.below[e] == from ensures t.below[e] == if Movable(s.owner, under, pinned, e) then to
        else from {
      var j :| 0 <= j < |s.parents[from]| && s.parents[from][j] == e;
    }
  }

  /** Every edge of the list may move or be skipped. */
  ghost predicate AllAllowed(owner: map<Edge, Node>, under: set<Node>, pinned: set<Edge>, frozen: set<Edge>,
      list: seq<Edge>, autoSkip: bool) {
    list == [] || (MoveAllowed(owner, under, pinned, frozen, list[0], autoSkip)
                   && AllAllowed(owner, under, pinned, frozen, list[1..], autoSkip))
  }

  lemma AllAllowedNext(owner: map<Edge, Node>, under: set<Node>, pinned: set<Edge>, frozen: set<Edge>, list: seq<Edge>,
      i: nat, autoSkip: bool)
    requires i < |list|
    ensures AllAllowed(owner, under, pinned, frozen, list[i..], autoSkip) <==>
            MoveAllowed(owner, under, pinned, frozen, list[i], autoSkip)
            && AllAllowed(owner, under, pinned, frozen, list[i + 1..], autoSkip)
  {
    assert list[i..][1..] == list[i + 1..];
  }

  /** The link filter and the frozen check on one parent edge of `from`, part of the way through. */
  method MayMove(t: Shape, ghost under: set<Node>, pinned: set<Edge>, frozen: set<Edge>, to: Node, c: Edge,
      autoSkip: bool)
    returns (update: bool, ok: bool)
    requires Sound(t) && to in t.nodes && c in t.below && Below(t.Rel(), to) == under
    ensures update <==> Movable(t.owner, under, pinned, c)
    ensures update ==> !OwnedBelow(t, c, to)
    ensures ok <==> MoveAllowed(t.owner, under, pinned, frozen, c, autoSkip)
  {
    ShapeSpells(t);
    LeadsToEdgeOwned(t, c, to);
    update := ShouldUpdateChild(t.children, t.below, t.Rel(), c, to, c in pinned);
    ok := if update then c !in frozen else autoSkip;
  }

  lemma MovedStep(s: Shape, t: Shape, t': Shape, under: set<Node>, pinned: set<Edge>, from: Node, to: Node, c: Edge,
      i: nat)
    requires s.WellFormed() && from in s.nodes && i < |s.parents[from]| && c == s.parents[from][i]
    requires MovedUpto(s, t, under, pinned, from, to, i)
    requires t'.nodes == t.nodes && t'.edges == t.edges && t'.owner == t.owner
    requires t'.below == if Movable(s.owner, under, pinned, c) then t.below[c := to] else t.below
    ensures MovedUpto(s, t', under, pinned, from, to, i + 1)
  {
    forall j | 0 <= j < |s.parents[from]| && j != i ensures s.parents[from][j] != c {
      NoDupAt(s.parents[from], if j < i then j else i, if j < i then i else j);
    }
  }

  /** Part of the way through the parents of `from`: `t` is the graph so far, `s` the graph before. */
  ghost predicate Midway(s: Shape, t: Shape, under: set<Node>, pinned: set<Edge>, from: Node, to: Node, i: nat)
    requires from in s.parents
  {
    && Sound(t) && MovedUpto(s, t, under, pinned, from, to, i) && Below(t.Rel(), to) == under
  }

  /** One turn of the loop of `bdrv_replace_node_noperm`, with `bdrv_replace_child_tran` inlined. */
  method MoveParent(ghost s: Shape, t: Shape, tran: seq<Undo>, ghost under: set<Node>, pinned: set<Edge>,
      frozen: set<Edge>,
                    from: Node, to: Node, c: Edge, ghost i: nat, autoSkip: bool)
    returns (ok: bool, t': Shape, tran': seq<Undo>)
    requires s.WellFormed() && from in s.nodes && to in s.nodes && i < |s.parents[from]| && c == s.parents[from][i]
    requires Midway(s, t, under, pinned, from, to, i) && RecordsOk(t.nodes, LinksOf(t), tran)
    ensures RecordsOk(t'.nodes, LinksOf(t'), tran') && Undone(LinksOf(t'), tran') == Undone(LinksOf(t), tran)
    ensures ok <==> MoveAllowed(s.owner, under, pinned, frozen, c, autoSkip)
    ensures Midway(s, t', under, pinned, from, to, if ok then i + 1 else i)
  {
    var update;
    update, ok := MayMove(t, under, pinned, frozen, to, c, autoSkip);
    t', tran' := t, tran;
    if ok && update {
      RelinkStep(t, Relinked(t, c, Some(to)), c, to);
      MoveUndone(t.nodes, LinksOf(t), c, to, tran);
      t', tran' := Relinked(t, c, Some(to)), tran + [MovedFrom(c, t.below[c])];
    }
    if ok {
      MovedStep(s, t, t', under, pinned, from, to, c, i);
    }
  }

  /** The loop of `bdrv_replace_node_noperm`. */
  method MoveParents(s: Shape, tran: seq<Undo>, pinned: set<Edge>, frozen: set<Edge>, from: Node, to: Node,
      autoSkip: bool)
    returns (ok: bool, t: Shape, tran': seq<Undo>)
    requires Sound(s) && RecordsOk(s.nodes, LinksOf(s), tran) && from in s.nodes && to in s.nodes
    ensures Sound(t) && t.nodes == s.nodes
    ensures RecordsOk(t.nodes, LinksOf(t), tran') && Undone(LinksOf(t), tran') == Undone(LinksOf(s), tran)
    ensures ok ==> MovedUpto(s, t, Below(s.Rel(), to), pinned, from, to, |s.parents[from]|)
    ensures ok <==> AllAllowed(s.owner, Below(s.Rel(), to), pinned, frozen, s.parents[from], autoSkip)
  {
    ghost var under := Below(s.Rel(), to);
    var list := s.parents[from];
    t, tran' := s, tran;
    assert list[0..] == list;
    var i := 0;
    while i < |list|
      invariant 0 <= i <= |list| && Midway(s, t, under, pinned, from, to, i)
      invariant RecordsOk(t.nodes, LinksOf(t), tran') && Undone(LinksOf(t), tran') == Undone(LinksOf(s), tran)
      invariant AllAllowed(s.owner, under, pinned, frozen, list, autoSkip) <==>
                AllAllowed(s.owner, under, pinned, frozen, list[i..], autoSkip)
    {
      AllAllowedNext(s.owner, under, pinned, frozen, list, i, autoSkip);
      ok, t, tran' := MoveParent(s, t, tran', under, pinned, frozen, from, to, list[i], i, autoSkip);
      if !ok {
        return;
      }
      i := i + 1;
    }
    ok := true;
  }

  /** No user of `from` is in the way of its moving to `to`. */
  ghost predicate MayReplace(s: Shape, pinned: set<Edge>, frozen: set<Edge>, from: Node, to: Node, autoSkip: bool) {
    from in s.parents && AllAllowed(s.owner, Below(s.Rel(), to), pinned, frozen, s.parents[from], autoSkip)
  }

  /** `bdrv_replace_node_noperm` on values: all users that may move have moved. */
  method MoveUsers(s: Shape, tran: seq<Undo>, pinned: set<Edge>, frozen: set<Edge>, from: Node, to: Node,
      autoSkip: bool)
    returns (ok: bool, t: Shape, tran': seq<Undo>)
    requires Sound(s) && RecordsOk(s.nodes, LinksOf(s), tran) && from in s.nodes && to in s.nodes
    ensures Sound(t) && t.nodes == s.nodes
    ensures RecordsOk(t.nodes, LinksOf(t), tran') && Undone(LinksOf(t), tran') == Undone(LinksOf(s), tran)
    ensures ok ==> LinksOf(t) == MovedLinks(LinksOf(s), pinned, from, to)
    ensures ok <==> MayReplace(s, pinned, frozen, from, to, autoSkip)
  {
    ok, t, tran' := MoveParents(s, tran, pinned, frozen, from, to, autoSkip);
    if ok {
      MovedUptoAll(s, t, Below(s.Rel(), to), pinned, from, to);
      MovedIs(LinksOf(s), LinksOf(t), pinned, from, to);
    }
  }

  /** A new edge `c` from node `p` down to node `bs`. */
  function Attached(s: Shape, c: Edge, p: Node, bs: Node): Shape {
    Relinked(WithEdge(s, c, Some(p)), c, Some(bs))
  }

  lemma WithEdgeOk(s: Shape, c: Edge, p: Node)
    requires s.WellFormed() && s.ListsChildren() && c !in s.edges && p in s.nodes
    ensures WithEdge(s, c, Some(p)).WellFormed() && WithEdge(s, c, Some(p)).ListsChildren()
  {
    assert ([c] + s.edges)[1..] == s.edges;
  }

  /** The cycle check of attach is exact. */
  lemma AttachAcyclic(s: Shape, c: Edge, p: Node, bs: Node)
    requires Sound(s) && c !in s.edges && p in s.nodes && bs in s.nodes
    ensures Acyclic(Attached(s, c, p, bs).Rel()) <==> !Reach(s.Rel(), bs, p)
    ensures Attached(s, c, p, bs).WellFormed() && Attached(s, c, p, bs).ListsChildren()
  {
    var b := WithEdge(s, c, Some(p));
    WithEdgeOk(s, c, p);
    RelinkedWellFormed(b, c, Some(bs));
    RelinkedChildren(b, c, Some(bs));
    AddEdgeAcyclic(s.Rel(), p, bs);
    AttachedRel(s, c, p, bs);
  }

  lemma AttachedRel(s: Shape, c: Edge, p: Node, bs: Node)
    requires s.WellFormed() && c !in s.edges
    ensures Attached(s, c, p, bs).Rel() == s.Rel() + {(p, bs)}
  {
    var t := Attached(s, c, p, bs);
    assert c in t.owner && c in t.below && (t.owner[c], t.below[c]) == (p, bs);
    forall e | e in s.Rel() ensures e in t.Rel() {
      var x :| x in s.owner && x in s.below && (s.owner[x], s.below[x]) == e;
      assert x in t.owner && x in t.below && t.owner[x] == s.owner[x] && t.below[x] == s.below[x];
    }
  }

  /** The cycle check of `bdrv_attach_child_noperm`. */
  method WouldCycle(s: Shape, p: Node, bs: Node) returns (cycle: bool)
    requires Sound(s) && bs in s.nodes
    ensures cycle <==> Reach(s.Rel(), bs, p)
  {
    ShapeSpells(s);
    cycle := RecurseHasChild(s.children, s.below, s.Rel(), bs, p);
  }

  lemma AddUndone(nodes: set<Node>, l: Links, c: Edge, p: Node, bs: Node, tran: seq<Undo>)
    requires c !in l.owner && c !in l.below && RecordsOk(nodes, l, tran)
    ensures var l' := AddLink(l, c, p, bs);
            Undone(l', tran + [Added(c)]) == Undone(l, tran) && RecordsOk(nodes, l', tran + [Added(c)])
  {
    var l' := AddLink(l, c, p, bs);
    assert l'.edges[1..] == l.edges;
    assert l'.owner - {c} == l.owner && l'.below - {c} == l.below;
    RecordsExtend(nodes, l, l', tran, Added(c));
    UndoneExtend(l, l', tran, Added(c));
  }

  /** Attaching where no cycle arises keeps the graph sound, and an abort would still restore what it would have. */
  lemma AttachStep(s: Shape, t: Shape, c: Edge, p: Node, bs: Node, tran: seq<Undo>)
    requires Sound(s) && c !in s.edges && p in s.nodes && bs in s.nodes && !Reach(s.Rel(), bs, p)
    requires RecordsOk(s.nodes, LinksOf(s), tran) && t == Attached(s, c, p, bs)
    ensures Sound(t) && t.nodes == s.nodes && LinksOf(t) == AddLink(LinksOf(s), c, p, bs)
    ensures Undone(LinksOf(t), tran + [Added(c)]) == Undone(LinksOf(s), tran)
            && RecordsOk(t.nodes, LinksOf(t), tran + [Added(c)])
  {
    AttachAcyclic(s, c, p, bs);
    AddUndone(s.nodes, LinksOf(s), c, p, bs, tran);
  }

  /** `bdrv_attach_child_noperm`; `unavailable` says that the new edge asks for more than an inactive node can give. */
  method TryAttach(shape: Shape, tran: seq<Undo>, inactive: set<Node>, unavailable: bool, c: Edge, p: Node, bs: Node)
    returns (ok: bool, shape': Shape, tran': seq<Undo>)
    requires Sound(shape) && RecordsOk(shape.nodes, LinksOf(shape), tran) && c !in shape.edges && p in shape.nodes
             && bs in shape.nodes
    ensures ok <==> !Reach(shape.Rel(), bs, p) && (bs in inactive ==> p in inactive) && !unavailable
    ensures Sound(shape') && RecordsOk(shape'.nodes, LinksOf(shape'), tran')
            && Undone(LinksOf(shape'), tran') == Undone(LinksOf(shape), tran)
    ensures LinksOf(shape') == (if ok then AddLink(LinksOf(shape), c, p, bs) else LinksOf(shape))
            && shape'.nodes == shape.nodes
    ensures shape' == if ok then Attached(shape, c, p, bs) else shape
  {
    var cycle := WouldCycle(shape, p, bs);
    ok := !cycle && (bs in inactive ==> p in inactive) && !unavailable;
    if ok {
      shape', tran' := Attached(shape, c, p, bs), tran + [Added(c)];
      AttachStep(shape, shape', c, p, bs, tran);
    } else {
      shape', tran' := shape, tran;
    }
  }

  method Rollback(s: Shape, tran: seq<Undo>) returns (t: Shape)
    requires s.WellFormed() && s.ListsChildren() && RecordsOk(s.nodes, LinksOf(s), tran)
    ensures t.WellFormed() && t.ListsChildren() && t.nodes == s.nodes && LinksOf(t) == Undone(LinksOf(s), tran)
  {
    t := s;
    var rest := tran;
    while rest != []
      invariant t.WellFormed() && t.ListsChildren() && t.nodes == s.nodes
      invariant RecordsOk(t.nodes, LinksOf(t), rest) && Undone(LinksOf(t), rest) == Undone(LinksOf(s), tran)
      decreases |rest|
    {
      var u := rest[|rest| - 1];
      UndoShapeOk(t, u);
      t := UndoShape(t, u);
      rest := rest[..|rest| - 1];
    }
  }

  /** What `bdrv_append` needs of the links: no cycle, no inactive node below an active one, and once the new node is
      attached no user of `top` that should move to it is frozen. */
  ghost predicate MayAppend(s: Shape, inactive: set<Node>, pinned: set<Edge>, frozen: set<Edge>, c: Edge, bsNew: Node,
      top: Node)
    requires top in s.nodes && top in s.parents
  {
    var t := Attached(s, c, bsNew, top);
    && !Reach(s.Rel(), top, bsNew) && (top in inactive ==> bsNew in inactive)
    && top in t.parents && AllAllowed(t.owner, Below(t.Rel(), bsNew), pinned, frozen, t.parents[top], true)
  }

  /** The links once `bsNew` is on top of `top` */
  ghost function AppendedLinks(l: Links, pinned: set<Edge>, c: Edge, bsNew: Node, top: Node): Links {
    MovedLinks(AddLink(l, c, bsNew, top), pinned, top, bsNew)
  }

  method TryAppend(s: Shape, inactive: set<Node>, unavailable: bool, pinned: set<Edge>, frozen: set<Edge>, c: Edge,
      bsNew: Node, top: Node)
    returns (ok: bool, t: Shape, tran: seq<Undo>)
    requires Sound(s) && c !in s.edges && bsNew in s.nodes && top in s.nodes && bsNew != top
    ensures Sound(t) && t.nodes == s.nodes && RecordsOk(t.nodes, LinksOf(t), tran)
    ensures Undone(LinksOf(t), tran) == LinksOf(s)
    ensures ok <==> MayAppend(s, inactive, pinned, frozen, c, bsNew, top) && !unavailable
    ensures ok ==> LinksOf(t) == AppendedLinks(LinksOf(s), pinned, c, bsNew, top)
  {
    ok, t, tran := TryAttach(s, [], inactive, unavailable, c, bsNew, top);
    if ok {
      ok, t, tran := MoveUsers(t, tran, pinned, frozen, top, bsNew, true);
    }
  }

  /** The links without an edge, which keeps its owner until the transaction is committed */
  function DetachedLinks(l: Links, d: Edge): Links {
    l.(below := l.below - {d})
  }

  lemma DetachStep(s: Shape, t: Shape, d: Edge)
    requires Sound(s) && d in s.below && t == Relinked(s, d, None)
    ensures Sound(t) && t.nodes == s.nodes && LinksOf(t) == DetachedLinks(LinksOf(s), d)
  {
    RelinkedWellFormed(s, d, None);
    RelinkedChildren(s, d, None);
    DetachedAcyclic(s, d);
  }

  lemma DetachUndone(nodes: set<Node>, l: Links, d: Edge, tran: seq<Undo>)
    requires d in l.below && RecordsOk(nodes, l, tran) && d in l.edges && l.below[d] in nodes
    ensures var (l', tran') := (DetachedLinks(l, d), tran + [MovedFrom(d, l.below[d])]);
            Undone(l', tran') == Undone(l, tran) && RecordsOk(nodes, l', tran')
  {
    assert (l.below - {d})[d := l.below[d]] == l.below;
    RecordsExtend(nodes, l, DetachedLinks(l, d), tran, MovedFrom(d, l.below[d]));
    UndoneExtend(l, DetachedLinks(l, d), tran, MovedFrom(d, l.below[d]));
  }

  /** `bdrv_remove_child` up to its commit */
  method DetachChild(s: Shape, tran: seq<Undo>, d: Edge) returns (t: Shape, tran': seq<Undo>)
    requires Sound(s) && RecordsOk(s.nodes, LinksOf(s), tran) && d in s.below
    ensures Sound(t) && t.nodes == s.nodes && LinksOf(t) == DetachedLinks(LinksOf(s), d)
    ensures RecordsOk(t.nodes, LinksOf(t), tran') && Undone(LinksOf(t), tran') == Undone(LinksOf(s), tran)
  {
    t, tran' := Relinked(s, d, None), tran + [MovedFrom(d, s.below[d])];
    DetachStep(s, t, d);
    DetachUndone(s.nodes, LinksOf(s), d, tran);
  }

  /** The links once a detached edge is gone */
  function DroppedLinks(l: Links, d: Edge): Links {
    Links(Without(l.edges, d), l.owner - {d}, l.below)
  }

  /** The commit of `bdrv_remove_child` */
  method DropChild(s: Shape, d: Edge) returns (t: Shape)
    requires Sound(s) && d !in s.below
    ensures Sound(t) && t.nodes == s.nodes && LinksOf(t) == DroppedLinks(LinksOf(s), d)
  {
    t := Dropped(s, d);
    DroppedOk(s, d);
    assert t.Rel() == s.Rel();
  }

  /** The edge that `bdrv_filter_or_cow_child` leads over to `to`, within `k` more steps down from `from` */
  ghost predicate OnChain(below: map<Edge, Node>, link: map<Node, Edge>, from: Node, to: Node, k: nat)
    decreases k
  {
    && from in link && link[from] in below
    && (below[link[from]] == to || (k > 0 && OnChain(below, link, below[link[from]], to, k - 1)))
  }

  ghost function CowEdge(below: map<Edge, Node>, link: map<Node, Edge>, from: Node, to: Node, k: nat): (d: Edge)
    requires OnChain(below, link, from, to, k)
    ensures d in below && below[d] == to
    decreases k
  {
    if below[link[from]] == to then link[from] else CowEdge(below, link, below[link[from]], to, k - 1)
  }

  /** The walk down the chain in `bdrv_replace_node_common` */
  method FindCowEdge(below: map<Edge, Node>, link: map<Node, Edge>, from: Node, to: Node, ghost k: nat)
    returns (d: Edge)
    requires OnChain(below, link, from, to, k)
    ensures d == CowEdge(below, link, from, to, k)
  {
    var p := from;
    ghost var j := k;
    while below[link[p]] != to
      invariant OnChain(below, link, p, to, j) && CowEdge(below, link, p, to, j) == CowEdge(below, link, from, to, k)
      decreases j
    {
      p, j := below[link[p]], j - 1;
    }
    d := link[p];
  }

  /** The loop of `bdrv_replace_node_noperm` and, with `detach`, the end of the chain that it took over */
  method TryReplace(s: Shape, pinned: set<Edge>, frozen: set<Edge>, from: Node, to: Node, autoSkip: bool,
      detach: Option<Edge>)
    returns (ok: bool, t: Shape, tran: seq<Undo>)
    requires Sound(s) && from in s.nodes && to in s.nodes && from != to
    requires detach.Some? ==> detach.value in s.below && s.below[detach.value] == to
    ensures Sound(t) && t.nodes == s.nodes && RecordsOk(t.nodes, LinksOf(t), tran)
    ensures Undone(LinksOf(t), tran) == LinksOf(s)
    ensures ok <==> MayReplace(s, pinned, frozen, from, to, autoSkip)
    ensures ok ==> LinksOf(t) == ReplacedLinks(LinksOf(s), pinned, from, to, detach)
  {
    ok, t, tran := MoveUsers(s, [], pinned, frozen, from, to, autoSkip);
    if ok && detach.Some? {
      t, tran := DetachChild(t, tran, detach.value);
    }
  }

  ghost function ReplacedLinks(l: Links, pinned: set<Edge>, from: Node, to: Node, detach: Option<Edge>): Links {
    var m := MovedLinks(l, pinned, from, to);
    if detach.Some? then DetachedLinks(m, detach.value) else m
  }

  class Graph {
    var shape: Shape
    var frozen: set<Edge>
    var pinned: set<Edge>
    var inactive: set<Node>
    var tran: seq<Undo>

    ghost predicate Valid()
      reads this
    {
      Sound(shape) && RecordsOk(shape.nodes, LinksOf(shape), tran)
    }

    /** The edge layout that aborting the open transaction would restore. */
    ghost function Restore(): Links
      reads this
    {
      Undone(LinksOf(shape), tran)
    }

    /** `bdrv_replace_node_noperm`: every parent edge of `from` that may move now leads to `to`; it fails at
        the first one that may not move (unless such edges are skipped) or is frozen. */
    method ReplaceNodeNoperm(from: Node, to: Node, autoSkip: bool) returns (ok: bool)
      requires Valid() && from in shape.nodes && to in shape.nodes && from != to
      modifies this`shape, this`tran
      ensures Valid() && Restore() == old(Restore())
      ensures ok ==> LinksOf(shape) == MovedLinks(LinksOf(old(shape)), pinned, from, to)
      ensures ok <==> MayReplace(old(shape), pinned, frozen, from, to, autoSkip)
    {
      ok, shape, tran := MoveUsers(shape, tran, pinned, frozen, from, to, autoSkip);
    }

    /** `tran_abort`: the records are undone last in, first out. */
    method Abort()
      requires Sound(shape) && RecordsOk(shape.nodes, LinksOf(shape), tran)
      modifies this`shape, this`tran
      ensures shape.WellFormed() && shape.ListsChildren() && shape.nodes == old(shape.nodes)
      ensures LinksOf(shape) == old(Restore()) && tran == []
    {
      shape := Rollback(shape, tran);
      tran := [];
    }

    /** `bdrv_attach_child_noperm`: refuses an edge that would close a cycle or put an inactive node below an active
        one, or that asks for more than an inactive node can give. */
    method AttachChildNoperm(c: Edge, p: Node, bs: Node, unavailable: bool) returns (ok: bool)
      requires Valid() && c !in shape.edges && p in shape.nodes && bs in shape.nodes
      modifies this`shape, this`tran
      ensures Valid() && Restore() == old(Restore())
      ensures ok <==> !Reach(old(shape).Rel(), bs, p) && (bs in inactive ==> p in inactive) && !unavailable
      ensures LinksOf(shape) == (if ok then AddLink(LinksOf(old(shape)), c, p, bs) else LinksOf(old(shape)))
              && shape.nodes == old(shape.nodes)
    {
      ok, shape, tran := TryAttach(shape, tran, inactive, unavailable, c, p, bs);
    }

    /** `tran_finalize`: an aborted transaction leaves every edge where it was when the transaction began. */
    method Finalize(ok: bool)
      requires Valid() && Acyclic(RelOf(Restore().owner, Restore().below))
      modifies this`shape, this`tran
      ensures Valid() && tran == [] && LinksOf(shape) == if ok then LinksOf(old(shape)) else old(Restore())
    {
      if ok {
        tran := [];
      } else {
        Abort();
      }
    }
  }
}
