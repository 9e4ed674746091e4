/** The block graph: nodes, the edges between them and the lists each node keeps of its edges. */
module BlockGraph {
  import opened Dag
  import opened IdLists
  import opened Options

  type Edge = nat

  /** Node `p` uses node `b` when an edge that `p` owns leads to `b`. */
  ghost function RelOf(owner: map<Edge, Node>, below: map<Edge, Node>): Rel {
    set e | e in owner && e in below :: (owner[e], below[e])
  }

  /** Every edge is a `BdrvChild`; it has an owner unless a BlockBackend holds it, and a node
      below while it is attached. `parents[n]` and `children[n]` are the lists of node `n`. */
  datatype Shape = Shape(nodes: set<Node>, edges: seq<Edge>, owner: map<Edge, Node>, below: map<Edge, Node>,
                         parents: map<Node, seq<Edge>>, children: map<Node, seq<Edge>>) {

    ghost function Rel(): Rel {
      RelOf(owner, below)
    }

    ghost predicate WellFormed() {
      && parents.Keys == nodes
      && (forall e :: e in owner || e in below ==> e in edges)
      && NoDup(edges)
      && (forall e {:trigger owner[e]} :: e in owner ==> owner[e] in nodes)
      && (forall e {:trigger below[e]} :: e in below ==> below[e] in nodes && e in parents[below[e]])
      && (forall n, i {:trigger parents[n][i]} :: n in nodes && 0 <= i < |parents[n]|
            ==> parents[n][i] in below && below[parents[n][i]] == n)
      && (forall n {:trigger parents[n]} :: n in nodes ==> NoDup(parents[n]))
    }

    /** The children lists hold exactly the attached edges of their nodes. */
    ghost predicate ListsChildren() {
      && children.Keys == nodes
      && (forall n, e {:trigger e in children[n]} :: n in nodes
            ==> (e in children[n] <==> e in owner && e in below && owner[e] == n))
      && (forall n {:trigger children[n]} :: n in nodes ==> NoDup(children[n]))
    }
  }

  /** A list of edges after `child` left it, if it was here, and came to its front, if it is here now. */
  function Relisted(list: seq<Edge>, child: Edge, wasHere: bool, isHere: bool): seq<Edge> {
    var gone := if wasHere then Without(list, child) else list;
    if isHere then [child] + gone else gone
  }

  /** `child` moved below `bs`, or detached: out of the old lists, to the front of the new ones. */
  function Relinked(s: Shape, child: Edge, bs: Option<Node>): Shape {
    s.(below := if bs.Some? then s.below[child := bs.value] else s.below - {child},
       parents := map n | n in s.parents ::
                    Relisted(s.parents[n], child, child in s.below && s.below[child] == n, bs == Some(n)),
       children := map n | n in s.children ::
                     Relisted(s.children[n], child, child in s.owner && s.owner[child] == n && child in s.below,
                                child in s.owner && s.owner[child] == n && bs.Some?))
  }

  lemma RelistedOk(list: seq<Edge>, child: Edge, wasHere: bool, isHere: bool)
    requires NoDup(list) && (child in list <==> wasHere)
    ensures NoDup(Relisted(list, child, wasHere, isHere))
    ensures forall e :: e in Relisted(list, child, wasHere, isHere) <==> (if e == child then isHere else e in list)
  {
    var gone := if wasHere then Without(list, child) else list;
    WithoutList(list, child);
    NoDupCons(child, gone);
  }

  lemma RelinkedParents(s: Shape, child: Edge, bs: Option<Node>, n: Node)
    requires s.WellFormed() && n in s.nodes
    ensures NoDup(Relinked(s, child, bs).parents[n])
    ensures forall e :: e in Relinked(s, child, bs).parents[n] <==>
                        (if e == child then bs == Some(n) else e in s.parents[n])
  {
    RelistedOk(s.parents[n], child, child in s.below && s.below[child] == n, bs == Some(n));
  }

  lemma RelinkedListed(s: Shape, child: Edge, bs: Option<Node>, n: Node, i: nat)
    requires s.WellFormed() && n in s.nodes && i < |Relinked(s, child, bs).parents[n]|
    ensures var t := Relinked(s, child, bs); t.parents[n][i] in t.below && t.below[t.parents[n][i]] == n
  {
    RelinkedParents(s, child, bs, n);
    var e := Relinked(s, child, bs).parents[n][i];
    if e != child {
      assert e in s.parents[n];
    }
  }

  lemma RelinkedAttached(s: Shape, child: Edge, bs: Option<Node>, e: Edge)
    requires s.WellFormed() && (bs.Some? ==> bs.value in s.nodes) && e in Relinked(s, child, bs).below
    ensures var t := Relinked(s, child, bs); t.below[e] in s.nodes && e in t.parents[t.below[e]]
  {
    RelinkedParents(s, child, bs, Relinked(s, child, bs).below[e]);
  }

  /** Moving an edge keeps the two directions of every attachment in step. */
  lemma RelinkedWellFormed(s: Shape, child: Edge, bs: Option<Node>)
    requires s.WellFormed() && child in s.edges && (bs.Some? ==> bs.value in s.nodes)
    ensures Relinked(s, child, bs).WellFormed()
  {
    var t := Relinked(s, child, bs);
    forall n | n in t.nodes ensures NoDup(t.parents[n]) {
      RelinkedParents(s, child, bs, n);
    }
    forall n, i | n in t.nodes && 0 <= i < |t.parents[n]|
      ensures t.parents[n][i] in t.below && t.below[t.parents[n][i]] == n
    {
      RelinkedListed(s, child, bs, n, i);
    }
    forall e | e in t.below ensures t.below[e] in t.nodes && e in t.parents[t.below[e]] {
      RelinkedAttached(s, child, bs, e);
    }
  }

  lemma RelinkedChildren(s: Shape, child: Edge, bs: Option<Node>)
    requires s.WellFormed() && s.ListsChildren()
    ensures Relinked(s, child, bs).ListsChildren()
  {
    forall n | n in s.nodes {
      RelinkedChildList(s, child, bs, n);
    }
  }

  lemma RelinkedChildList(s: Shape, child: Edge, bs: Option<Node>, n: Node)
    requires s.WellFormed() && s.ListsChildren() && n in s.nodes
    ensures var t := Relinked(s, child, bs);
            n in t.children && NoDup(t.children[n])
            && forall e :: e in t.children[n] <==> e in t.owner && e in t.below && t.owner[e] == n
  {
    var t := Relinked(s, child, bs);
    RelistedOk(s.children[n], child, child in s.owner && s.owner[child] == n && child in s.below,
               child in s.owner && s.owner[child] == n && bs.Some?);
    forall e ensures e in t.children[n] <==> e in t.owner && e in t.below && t.owner[e] == n {
      assert e in s.children[n] <==> e in s.owner && e in s.below && s.owner[e] == n;
    }
  }

  /** Two graphs with the same nodes and attachments; the order of the lists may differ. */
  ghost predicate SameAttachments(s: Shape, t: Shape) {
    s.nodes == t.nodes && s.edges == t.edges && s.owner == t.owner && s.below == t.below
  }

  /** An edge that was moved or detached goes back to where it was. */
  lemma MovedBack(s: Shape, child: Edge, bs: Option<Node>)
    requires child in s.below
    ensures SameAttachments(Relinked(Relinked(s, child, bs), child, Some(s.below[child])), s)
    ensures Relinked(Relinked(s, child, bs), child, Some(s.below[child])).Rel() == s.Rel()
  {
    assert Relinked(Relinked(s, child, bs), child, Some(s.below[child])).below == s.below;
  }

  lemma DetachedAcyclic(s: Shape, child: Edge)
    requires Acyclic(s.Rel())
    ensures Acyclic(Relinked(s, child, None).Rel())
  {
    AcyclicSubset(Relinked(s, child, None).Rel(), s.Rel());
  }

  /** A fresh edge, owned by `p` if any, attached to nothing yet. */
  function WithEdge(s: Shape, c: Edge, p: Option<Node>): Shape {
    s.(edges := [c] + s.edges, owner := if p.Some? then s.owner[c := p.value] else s.owner)
  }

  /** The children lists together with `child->bs` spell out the relation `r`. */
  ghost predicate Spells(children: map<Node, seq<Edge>>, below: map<Edge, Node>, r: Rel) {
    && (forall n, i :: n in children && 0 <= i < |children[n]| ==>
          children[n][i] in below && below[children[n][i]] in children && (n, below[children[n][i]]) in r)
    && (forall a, b :: (a, b) in r ==> HasChild(children, below, a, b))
  }

  ghost predicate HasChild(children: map<Node, seq<Edge>>, below: map<Edge, Node>, a: Node, b: Node) {
    a in children && exists i :: 0 <= i < |children[a]| && children[a][i] in below && below[children[a][i]] == b
  }

  lemma ShapeSpells(s: Shape)
    requires s.WellFormed() && s.ListsChildren()
    ensures Spells(s.children, s.below, s.Rel())
  {
    forall n, i | n in s.children && 0 <= i < |s.children[n]|
      ensures s.children[n][i] in s.below && s.below[s.children[n][i]] in s.children
              && (n, s.below[s.children[n][i]]) in s.Rel()
    {
      assert s.children[n][i] in s.children[n];
    }
    forall a, b | (a, b) in s.Rel() ensures HasChild(s.children, s.below, a, b) {
      var e :| e in s.owner && e in s.below && s.owner[e] == a && s.below[e] == b;
      assert e in s.children[a];
    }
  }
}
