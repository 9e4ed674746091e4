/** Drained sections of the block graph: `quiesce_counter` on nodes, `quiesced_parent`
    on edges, and the climb from a drained node to everything above it. */
module Drain {
  import opened Dag
  import opened Options
  import opened BlockGraph
  import opened IdLists

  /** Owners rank above what they own; a drain climbs in rank. */
  ghost predicate Ranked(s: Shape, rank: Node -> nat, top: nat) {
    && s.WellFormed()
    && (forall n :: n in s.nodes ==> rank(n) < top)
    && (forall e :: e in s.owner && e in s.below ==> rank(s.below[e]) < rank(s.owner[e]))
  }

  /** How many quiesced edges node `n` owns. */
  ghost function Quiesced(s: Shape, q: set<Edge>, n: Node): nat {
    Count(s.owner, s.edges, q, n)
  }

  ghost function Count(owner: map<Edge, Node>, edges: seq<Edge>, q: set<Edge>, n: Node): nat {
    if edges == [] then 0
    else Count(owner, edges[1..], q, n) + (if edges[0] in owner && owner[edges[0]] == n && edges[0] in q then 1 else 0)
  }

  /** Each counter, once `delta` reaches the `pending` node, is the node's own drains plus its quiesced edges. */
  ghost predicate CountsOk(s: Shape, counter: map<Node, int>, q: set<Edge>, direct: multiset<Node>, pending: Node,
      delta: int) {
    && counter.Keys == s.nodes
    && (forall n {:trigger Quiesced(s, q, n)} {:trigger counter[n]} :: n in s.nodes ==>
          counter[n] >= 0 && counter[n] + (if n == pending then delta else 0) == direct[n] + Quiesced(s, q, n))
  }

  /** An attached edge is quiesced exactly when the node below it is; for nodes of rank `k` or more. */
  ghost predicate EdgesOk(s: Shape, rank: Node -> nat, counter: map<Node, int>, q: set<Edge>, k: nat) {
    forall e {:trigger e in q} :: e in s.below && s.below[e] in counter && rank(s.below[e]) >= k
      ==> (e in q <==> counter[s.below[e]] > 0)
  }

  /** Counters in order, and edges in order from rank `k` up */
  ghost predicate OrderFrom(s: Shape, rank: Node -> nat, counter: map<Node, int>, q: set<Edge>, direct: multiset<Node>,
      k: nat) {
    CountsOk(s, counter, q, direct, 0, 0) && EdgesOk(s, rank, counter, q, k)
  }

  ghost predicate Balanced(s: Shape, counter: map<Node, int>, q: set<Edge>, direct: multiset<Node>) {
    && s.WellFormed() && Acyclic(s.Rel()) && CountsOk(s, counter, q, direct, 0, 0)
    && (forall e {:trigger e in q} :: e in s.below && s.below[e] in counter ==> (e in q <==> counter[s.below[e]] > 0))
    && (forall e {:trigger e in q} :: e in q ==> e in s.below)
  }

  /** Nodes below rank `k`, the edges into them and the detached edges are as they were. */
  ghost predicate SameBelow(s: Shape, rank: Node -> nat, k: nat, c0: map<Node, int>, q0: set<Edge>, c1: map<Node, int>,
      q1: set<Edge>) {
    && c0.Keys == c1.Keys
    && (forall n {:trigger c0[n]} {:trigger c1[n]} :: n in c0 && rank(n) < k ==> c1[n] == c0[n])
    && (forall e {:trigger e in q0} {:trigger e in q1} :: (e in s.below ==> rank(s.below[e]) < k)
          ==> (e in q1 <==> e in q0))
  }

  lemma {:induction false} CountAdd(owner: map<Edge, Node>, edges: seq<Edge>, q: set<Edge>, c: Edge, n: Node)
    requires c !in q && NoDup(edges)
    ensures Count(owner, edges, q + {c}, n) == Count(owner, edges, q, n)
            + (if c in edges && c in owner && owner[c] == n then 1 else 0)
  {
    if edges != [] {
      CountAdd(owner, edges[1..], q, c, n);
      assert c in edges <==> c == edges[0] || c in edges[1..];
    }
  }

  /** Quiescing (`up`) or releasing an edge leaves its owner one increment or decrement behind. */
  lemma MarkEdge(s: Shape, rank: Node -> nat, k: nat, counter: map<Node, int>, q: set<Edge>, q': set<Edge>,
      direct: multiset<Node>, c: Edge, n: Node, up: bool)
    requires s.WellFormed() && CountsOk(s, counter, q, direct, 0, 0) && EdgesOk(s, rank, counter, q, k)
    requires c in s.owner && s.owner[c] == n && (c in q <==> !up) && q' == (if up then q + {c} else q - {c})
    requires rank(n) >= k && (c in s.below ==> rank(s.below[c]) < k)
    ensures CountsOk(s, counter, q', direct, n, if up then 1 else -1)
    ensures EdgesOk(s, rank, counter, q', k) && EdgesOk(s, rank, counter, q', rank(n))
  {
    forall m | m in s.nodes {
      CountAdd(s.owner, s.edges, if up then q else q - {c}, c, m);
    }
    assert !up ==> (q - {c}) + {c} == q;
  }

  /** An edge that a BlockBackend holds has no node above to count it. */
  lemma MarkRootEdge(s: Shape, rank: Node -> nat, k: nat, counter: map<Node, int>, q: set<Edge>, q': set<Edge>,
      direct: multiset<Node>, c: Edge, up: bool)
    requires s.WellFormed() && CountsOk(s, counter, q, direct, 0, 0) && EdgesOk(s, rank, counter, q, k)
    requires c in s.edges && c !in s.owner && (c in q <==> !up) && q' == (if up then q + {c} else q - {c})
    requires c in s.below ==> rank(s.below[c]) < k
    ensures CountsOk(s, counter, q', direct, 0, 0) && EdgesOk(s, rank, counter, q', k)
  {
    forall m | m in s.nodes {
      CountAdd(s.owner, s.edges, if up then q else q - {c}, c, m);
    }
    assert !up ==> (q - {c}) + {c} == q;
  }

  /** Marking an edge into a lower rank disturbs no edge of rank `k`, and a climb from its owner none below. */
  lemma ClimbOverEdge(s: Shape, rank: Node -> nat, k: nat, n: Node, c: Edge, c0: map<Node, int>, q0: set<Edge>,
      c1: map<Node, int>, q1: set<Edge>)
    requires rank(n) >= k
    requires EdgesOk(s, rank, c0, q0, k)
    requires SameBelow(s, rank, rank(n), c0, q0, c1, q1) && EdgesOk(s, rank, c1, q1, rank(n))
    ensures EdgesOk(s, rank, c1, q1, k)
    ensures SameBelow(s, rank, k, c0, q0, c1, q1)
  {
  }

  ghost function Prefix(list: seq<Edge>, i: nat): set<Edge>
    requires i <= |list|
  {
    set j | 0 <= j < i :: list[j]
  }

  lemma NotVisited(list: seq<Edge>, i: nat)
    requires NoDup(list) && i < |list|
    ensures list[i] !in Prefix(list, i)
  {
    forall j | 0 <= j < i {
      NoDupAt(list, j, i);
    }
  }

  /** The next edge of the parent list is as it was before the first one was visited. */
  lemma NextAsBefore(s: Shape, rank: Node -> nat, n: Node, c0: map<Node, int>, q0: set<Edge>, c1: map<Node, int>,
      q1: set<Edge>, i: nat, up: bool)
    requires s.WellFormed() && n in s.nodes && i < |s.parents[n]|
    requires SameBelow(s, rank, rank(n) + 1, c0, if up then q0 + Prefix(s.parents[n], i)
             else q0 - Prefix(s.parents[n], i), c1, q1)
    ensures s.parents[n][i] in q1 <==> s.parents[n][i] in q0
  {
    NotVisited(s.parents[n], i);
  }

  lemma NextEdge(s: Shape, rank: Node -> nat, top: nat, n: Node, i: nat)
    requires Ranked(s, rank, top) && n in s.nodes && i < |s.parents[n]|
    ensures var c := s.parents[n][i];
            c in s.edges && c in s.below && s.below[c] == n && (c in s.owner ==> rank(s.owner[c]) >= rank(n) + 1)
  {
  }

  /** One more edge of the parent list visited. */
  lemma VisitNext(s: Shape, rank: Node -> nat, k: nat, c0: map<Node, int>, q0: set<Edge>, c1: map<Node, int>,
      q1: set<Edge>, c2: map<Node, int>, q2: set<Edge>, list: seq<Edge>, i: nat, up: bool)
    requires i < |list|
    requires SameBelow(s, rank, k, c0, if up then q0 + Prefix(list, i) else q0 - Prefix(list, i), c1, q1)
    requires SameBelow(s, rank, k, c1, if up then q1 + {list[i]} else q1 - {list[i]}, c2, q2)
    ensures SameBelow(s, rank, k, c0, if up then q0 + Prefix(list, i + 1) else q0 - Prefix(list, i + 1), c2, q2)
  {
    assert Prefix(list, i + 1) == Prefix(list, i) + {list[i]};
  }

  /** Once every edge into `n` has the state that `n`'s counter asks for, rank `rank(n)` is in order again. */
  lemma LevelDone(s: Shape, rank: Node -> nat, n: Node, c0: map<Node, int>, q0: set<Edge>, c1: map<Node, int>,
      q1: set<Edge>, q2: set<Edge>, up: bool)
    requires s.WellFormed() && n in s.nodes && c0.Keys == s.nodes && c0[n] >= 0
    requires EdgesOk(s, rank, c0, q0, rank(n))
    requires q2 == if up then q0 + Prefix(s.parents[n], |s.parents[n]|) else q0 - Prefix(s.parents[n], |s.parents[n]|)
    requires c1.Keys == s.nodes && (c1[n] > 0 <==> up)
    requires SameBelow(s, rank, rank(n) + 1, c0[n := c1[n]], q2, c1, q1)
    requires EdgesOk(s, rank, c1, q1, rank(n) + 1)
    ensures EdgesOk(s, rank, c1, q1, rank(n))
    ensures SameBelow(s, rank, rank(n), c0, q0, c1, q1)
  {
    var list := s.parents[n];
    forall e | e in s.below && rank(s.below[e]) == rank(n) ensures e in q1 <==> c1[s.below[e]] > 0 {
      if s.below[e] == n {
        assert e in list;
      } else {
        assert e !in list;
      }
    }
    forall e | e in s.below ==> rank(s.below[e]) < rank(n) ensures e in q1 <==> e in q0 {
      assert e !in list;
    }
  }

  /** A node's counter goes up or down by one, after one of its edges or its own drains did. */
  lemma Bumped(s: Shape, rank: Node -> nat, n: Node, counter: map<Node, int>, q: set<Edge>, direct: multiset<Node>,
      delta: int)
    requires s.WellFormed() && n in s.nodes && (delta == 1 || delta == -1)
    requires CountsOk(s, counter, q, direct, n, delta) && EdgesOk(s, rank, counter, q, rank(n))
    ensures n in counter && counter[n] + delta >= 0
    ensures var c := counter[n := counter[n] + delta];
            && OrderFrom(s, rank, c, q, direct, rank(n) + 1)
            && (forall i :: 0 <= i < |s.parents[n]| ==> (s.parents[n][i] in q <==> counter[n] > 0))
            && ((counter[n] > 0 <==> c[n] > 0)
               ==> EdgesOk(s, rank, c, q, rank(n)) && SameBelow(s, rank, rank(n), counter, q, c, q))
  {
    assert counter[n] + delta == direct[n] + Quiesced(s, q, n);
  }

  /** An acyclic graph can be ranked: by the number of nodes each node leads to. */
  lemma RankedByHeight(s: Shape) returns (rank: Node -> nat, top: nat)
    requires s.WellFormed() && Acyclic(s.Rel())
    ensures Ranked(s, rank, top)
  {
    var r := s.Rel();
    rank, top := n => Height(r, n), |Nodes(r)| + 2;
    forall n | n in s.nodes {
      HeightBound(s.Rel(), n);
    }
    forall e | e in s.owner && e in s.below {
      HeightDecreases(s.Rel(), s.owner[e], s.below[e]);
    }
  }

  /** Every edge but `c` agrees with the node below it. */
  ghost predicate EdgesBut(below: map<Edge, Node>, counter: map<Node, int>, q: set<Edge>, c: Edge) {
    && (forall e {:trigger e in q} :: e in below && e != c && below[e] in counter ==>
          (e in q <==> counter[below[e]] > 0))
    && (forall e {:trigger e in q} :: e in q && e != c ==> e in below)
  }

  /** Balanced, apart from one edge that is being moved. */
  ghost predicate BalancedBut(s: Shape, counter: map<Node, int>, q: set<Edge>, direct: multiset<Node>, c: Edge) {
    s.WellFormed() && CountsOk(s, counter, q, direct, 0, 0) && EdgesBut(s.below, counter, q, c)
  }

  lemma BalancedEdge(s: Shape, counter: map<Node, int>, q: set<Edge>, direct: multiset<Node>, c: Edge)
    requires Balanced(s, counter, q, direct)
    ensures BalancedBut(s, counter, q, direct, c)
    ensures c in s.below && s.below[c] in direct ==> c in q
  {
    if c in s.below {
      assert counter[s.below[c]] == direct[s.below[c]] + Quiesced(s, q, s.below[c]);
    }
  }

  lemma RelinkedCounts(s: Shape, t: Shape, counter: map<Node, int>, q: set<Edge>, direct: multiset<Node>)
    requires CountsOk(s, counter, q, direct, 0, 0) && t.edges == s.edges && t.nodes == s.nodes && t.owner == s.owner
    ensures CountsOk(t, counter, q, direct, 0, 0)
  {
    forall n | n in s.nodes ensures Quiesced(t, q, n) == Quiesced(s, q, n) { }
  }

  lemma RelinkedEdges(below: map<Edge, Node>, counter: map<Node, int>, q: set<Edge>, c: Edge, bs: Option<Node>)
    requires EdgesBut(below, counter, q, c)
    ensures EdgesBut(if bs.Some? then below[c := bs.value] else below - {c}, counter, q, c)
  {
  }

  lemma RelinkedBut(s: Shape, t: Shape, counter: map<Node, int>, q: set<Edge>, direct: multiset<Node>, child: Edge,
      bs: Option<Node>)
    requires BalancedBut(s, counter, q, direct, child) && child in s.edges && (bs.Some? ==> bs.value in s.nodes)
    requires t == Relinked(s, child, bs)
    ensures BalancedBut(t, counter, q, direct, child) && t.edges == s.edges && t.nodes == s.nodes
    ensures if bs.Some? then child in t.below && t.below[child] == bs.value else child !in t.below
  {
    RelinkedWellFormed(s, child, bs);
    RelinkedCounts(s, t, counter, q, direct);
    RelinkedEdges(s.below, counter, q, child, bs);
  }

  /** An edge that already agrees with the node below it needs no drain to end. */
  lemma MovedEdgeAgrees(s: Shape, c: Edge, counter: map<Node, int>, q: set<Edge>, direct: multiset<Node>)
    requires BalancedBut(s, counter, q, direct, c) && Acyclic(s.Rel())
    requires if c in s.below then s.below[c] in counter && counter[s.below[c]] > 0 && c in q else c !in q
    ensures Balanced(s, counter, q, direct)
  {
  }

  /** The drain of a moved edge above an undrained node, or above none, has ended. */
  lemma MovedEdgeSettled(s: Shape, rank: Node -> nat, k: nat, c: Edge, c0: map<Node, int>, q0: set<Edge>,
      c1: map<Node, int>, q1: set<Edge>, direct: multiset<Node>)
    requires BalancedBut(s, c0, q0, direct, c) && Acyclic(s.Rel())
    requires CountsOk(s, c1, q1, direct, 0, 0) && EdgesOk(s, rank, c1, q1, k)
    requires SameBelow(s, rank, k, c0, q0 - {c}, c1, q1)
    requires c in s.below ==> s.below[c] in c0 && rank(s.below[c]) < k && c0[s.below[c]] == 0
    ensures Balanced(s, c1, q1, direct)
  {
    forall e | e in s.below && s.below[e] in c1 ensures e in q1 <==> c1[s.below[e]] > 0 {
      if rank(s.below[e]) < k {
        assert e in q1 <==> e in q0 - {c};
      }
    }
  }

  /** Order from rank `k` up together with no change below it is order everywhere. */
  lemma BalancedFromRank(s: Shape, rank: Node -> nat, k: nat, c0: map<Node, int>, q0: set<Edge>, d0: multiset<Node>,
      c1: map<Node, int>, q1: set<Edge>, d1: multiset<Node>)
    requires Balanced(s, c0, q0, d0)
    requires CountsOk(s, c1, q1, d1, 0, 0) && EdgesOk(s, rank, c1, q1, k)
    requires SameBelow(s, rank, k, c0, q0, c1, q1)
    ensures Balanced(s, c1, q1, d1)
  {
    forall e | e in s.below && s.below[e] in c1 ensures e in q1 <==> c1[s.below[e]] > 0 {
      if rank(s.below[e]) < k {
        assert e in q1 <==> e in q0;
      }
    }
  }

  lemma {:induction false} CountSame(owner: map<Edge, Node>, edges: seq<Edge>, q: set<Edge>, q': set<Edge>, n: Node)
    requires forall e :: e in edges && e in owner && owner[e] == n ==> (e in q <==> e in q')
    ensures Count(owner, edges, q, n) == Count(owner, edges, q', n)
  {
    if edges != [] {
      CountSame(owner, edges[1..], q, q', n);
    }
  }

  lemma {:induction false} CountPositive(owner: map<Edge, Node>, edges: seq<Edge>, q: set<Edge>, n: Node)
      returns (e: Edge)
    requires Count(owner, edges, q, n) > 0
    ensures e in edges && e in owner && owner[e] == n && e in q
  {
    if edges[0] in owner && owner[edges[0]] == n && edges[0] in q {
      e := edges[0];
    } else {
      e := CountPositive(owner, edges[1..], q, n);
    }
  }

  lemma {:induction false} CountMember(owner: map<Edge, Node>, edges: seq<Edge>, q: set<Edge>, n: Node, e: Edge)
    requires e in edges && e in owner && owner[e] == n && e in q
    ensures Count(owner, edges, q, n) > 0
  {
    if e != edges[0] {
      CountMember(owner, edges[1..], q, n, e);
    }
  }

  lemma {:induction false} CountNewOwner(owner: map<Edge, Node>, edges: seq<Edge>, q: set<Edge>, c: Edge, p: Node,
      n: Node)
    requires c !in q
    ensures Count(owner[c := p], edges, q, n) == Count(owner, edges, q, n)
  {
    if edges != [] {
      CountNewOwner(owner, edges[1..], q, c, p, n);
    }
  }

  lemma WithEdgeCounts(s: Shape, counter: map<Node, int>, q: set<Edge>, direct: multiset<Node>, c: Edge,
      p: Option<Node>)
    requires CountsOk(s, counter, q, direct, 0, 0) && c !in q
    ensures CountsOk(WithEdge(s, c, p), counter, q, direct, 0, 0)
  {
    var t := WithEdge(s, c, p);
    assert t.edges[1..] == s.edges;
    forall n | n in s.nodes ensures Quiesced(t, q, n) == Quiesced(s, q, n) {
      if p.Some? {
        CountNewOwner(s.owner, s.edges, q, c, p.value, n);
      }
    }
  }

  lemma WithEdgeWellFormed(s: Shape, c: Edge, p: Option<Node>)
    requires s.WellFormed() && c !in s.edges && (p.Some? ==> p.value in s.nodes)
    ensures WithEdge(s, c, p).WellFormed() && c !in s.below
  {
    assert WithEdge(s, c, p).edges[1..] == s.edges;
  }

  lemma WithEdgeRel(s: Shape, c: Edge, p: Option<Node>)
    requires c !in s.below
    ensures WithEdge(s, c, p).Rel() == s.Rel()
  {
  }

  lemma WithEdgeBalanced(s: Shape, counter: map<Node, int>, q: set<Edge>, direct: multiset<Node>, c: Edge,
      p: Option<Node>)
    requires Balanced(s, counter, q, direct) && c !in s.edges && (p.Some? ==> p.value in s.nodes)
    ensures Balanced(WithEdge(s, c, p), counter, q, direct) && c !in q && c !in s.below
  {
    WithEdgeWellFormed(s, c, p);
    WithEdgeRel(s, c, p);
    assert c !in q;
    WithEdgeCounts(s, counter, q, direct, c, p);
  }

  lemma {:induction false} CounterDetermined(s: Shape, c: map<Node, int>, q: set<Edge>, t: Shape, c': map<Node, int>,
      q': set<Edge>, direct: multiset<Node>, n: Node)
    requires Balanced(s, c, q, direct) && Balanced(t, c', q', direct) && SameAttachments(s, t) && n in s.nodes
    ensures c[n] == c'[n]
    decreases Height(s.Rel(), n)
  {
    forall e | e in s.edges && e in s.owner && s.owner[e] == n ensures e in q <==> e in q' {
      if e in s.below {
        HeightDecreases(s.Rel(), n, s.below[e]);
        CounterDetermined(s, c, q, t, c', q', direct, s.below[e]);
      }
    }
    CountSame(s.owner, s.edges, q, q', n);
    assert c[n] == direct[n] + Quiesced(s, q, n) && c'[n] == direct[n] + Quiesced(t, q', n);
  }

  /** The direct drains and the attachments determine every counter and every edge: whatever the history,
      once the same sections are open the same nodes and edges are quiesced, and equally often. */
  lemma DrainStateDetermined(s: Shape, c: map<Node, int>, q: set<Edge>, t: Shape, c': map<Node, int>, q': set<Edge>,
      direct: multiset<Node>)
    requires Balanced(s, c, q, direct) && Balanced(t, c', q', direct) && SameAttachments(s, t)
    ensures c == c' && q == q'
  {
    forall n | n in s.nodes ensures c[n] == c'[n] {
      CounterDetermined(s, c, q, t, c', q', direct, n);
    }
    forall e ensures e in q <==> e in q' {
      if e in s.below {
        assert s.below[e] in c;
      }
    }
  }

  /** What drained nodes mean for their counters, and for the edges above */
  lemma DrainedMeans(s: Shape, c: map<Node, int>, q: set<Edge>, direct: multiset<Node>, a: Node, b: Node, child: Edge)
    requires Balanced(s, c, q, direct) && child in s.below && s.below[child] == a && a in direct && b in direct
             && b in s.nodes
    ensures child in q && c[b] > 0
  {
    assert c[a] == direct[a] + Quiesced(s, q, a) && c[b] == direct[b] + Quiesced(s, q, b);
  }

  /** Two sections that are opened and closed leave no trace, if the attachments are what they were. */
  lemma SectionsClosed(s: Shape, c: map<Node, int>, q: set<Edge>, d: multiset<Node>,
                       t: Shape, c': map<Node, int>, q': set<Edge>, d': multiset<Node>, a: Node, b: Node)
    requires Balanced(s, c, q, d) && Balanced(t, c', q', d') && d' == d + multiset{a, b} - multiset{a, b}
    ensures d' == d && (SameAttachments(t, s) ==> c == c' && q == q')
  {
    assert d' == d;
    if SameAttachments(t, s) {
      DrainStateDetermined(s, c, q, t, c', q', d);
    }
  }

  ghost predicate DrainedBelow(s: Shape, direct: multiset<Node>, n: Node) {
    exists m :: m in direct && Reach(s.Rel(), n, m)
  }

  /** A node is quiesced exactly when it, or a node somewhere below it, is in a drained section. */
  lemma {:induction false} QuiescedIffDrainedBelow(s: Shape, c: map<Node, int>, q: set<Edge>, direct: multiset<Node>,
      n: Node)
    requires Balanced(s, c, q, direct) && n in s.nodes
    ensures c[n] > 0 <==> DrainedBelow(s, direct, n)
    decreases Height(s.Rel(), n)
  {
    var r := s.Rel();
    if c[n] > 0 && direct[n] > 0 {
      ReachSelf(r, n);
    } else if c[n] > 0 {
      assert c[n] == direct[n] + Quiesced(s, q, n);
      var e := CountPositive(s.owner, s.edges, q, n);
      assert (n, s.below[e]) in r;
      HeightDecreases(r, n, s.below[e]);
      QuiescedIffDrainedBelow(s, c, q, direct, s.below[e]);
      var m :| m in direct && Reach(r, s.below[e], m);
      ReachEdge(r, n, s.below[e], m);
    }
    if DrainedBelow(s, direct, n) {
      var m :| m in direct && Reach(r, n, m);
      if m != n {
        var b := ReachFirst(r, n, m);
        HeightDecreases(r, n, b);
        var e :| e in s.owner && e in s.below && s.owner[e] == n && s.below[e] == b;
        QuiescedIffDrainedBelow(s, c, q, direct, b);
        CountMember(s.owner, s.edges, q, n, e);
      }
      assert c[n] == direct[n] + Quiesced(s, q, n);
    }
  }

  class Graph {
    var shape: Shape
    var counter: map<Node, int>
    var quiesced: set<Edge>
    ghost var direct: multiset<Node>

    ghost predicate Valid()
      reads this
    {
      Balanced(shape, counter, quiesced, direct)
    }

    method ParentDrainedBeginSingle(c: Edge, ghost rank: Node -> nat, ghost top: nat, ghost k: nat)
      requires Ranked(shape, rank, top)
      requires OrderFrom(shape, rank, counter, quiesced, direct, k)
      requires c in shape.edges && c !in quiesced
      requires c in shape.owner ==> rank(shape.owner[c]) >= k
      requires c in shape.below ==> rank(shape.below[c]) < k
      modifies this`counter, this`quiesced
      ensures OrderFrom(shape, rank, counter, quiesced, direct, k)
      ensures SameBelow(shape, rank, k, old(counter), old(quiesced) + {c}, counter, quiesced)
      decreases if k <= top then top - k else 0, 2
    {
      quiesced := quiesced + {c};
      ghost var q0 := quiesced;
      if c in shape.owner {
        var n := shape.owner[c];
        MarkEdge(shape, rank, k, counter, old(quiesced), q0, direct, c, n, true);
        DoDrainedBegin(n, rank, top);
        ClimbOverEdge(shape, rank, k, n, c, old(counter), q0, counter, quiesced);
      } else {
        MarkRootEdge(shape, rank, k, counter, old(quiesced), q0, direct, c, true);
      }
    }

    method ParentDrainedBegin(n: Node, ghost rank: Node -> nat, ghost top: nat)
      requires Ranked(shape, rank, top) && n in shape.nodes
      requires OrderFrom(shape, rank, counter, quiesced, direct, rank(n) + 1)
      requires forall i :: 0 <= i < |shape.parents[n]| ==> shape.parents[n][i] !in quiesced
      modifies this`counter, this`quiesced
      ensures OrderFrom(shape, rank, counter, quiesced, direct, rank(n) + 1)
      ensures SameBelow(shape, rank, rank(n) + 1, old(counter),
              old(quiesced) + Prefix(shape.parents[n], |shape.parents[n]|), counter, quiesced)
      decreases top - rank(n), 0
    {
      var i := 0;
      var list := shape.parents[n];
      while i < |list|
        invariant 0 <= i <= |list|
        invariant OrderFrom(shape, rank, counter, quiesced, direct, rank(n) + 1)
        invariant SameBelow(shape, rank, rank(n) + 1, old(counter), old(quiesced) + Prefix(list, i), counter, quiesced)
      {
        BeginNext(n, list, i, rank, top, old(counter), old(quiesced));
        i := i + 1;
      }
    }

    /** One round of that loop */
    method BeginNext(n: Node, list: seq<Edge>, i: nat, ghost rank: Node -> nat, ghost top: nat,
        ghost c0: map<Node, int>, ghost q0: set<Edge>)
      requires Ranked(shape, rank, top) && n in shape.nodes && list == shape.parents[n] && i < |list|
      requires forall j :: 0 <= j < |list| ==> list[j] !in q0
      requires OrderFrom(shape, rank, counter, quiesced, direct, rank(n) + 1)
      requires SameBelow(shape, rank, rank(n) + 1, c0, q0 + Prefix(list, i), counter, quiesced)
      modifies this`counter, this`quiesced
      ensures OrderFrom(shape, rank, counter, quiesced, direct, rank(n) + 1)
      ensures SameBelow(shape, rank, rank(n) + 1, c0, q0 + Prefix(list, i + 1), counter, quiesced)
      decreases if rank(n) + 1 <= top then top - rank(n) - 1 else 0, 3
    {
      NextEdge(shape, rank, top, n, i);
      NextAsBefore(shape, rank, n, c0, q0, counter, quiesced, i, true);
      ParentDrainedBeginSingle(list[i], rank, top, rank(n) + 1);
      VisitNext(shape, rank, rank(n) + 1, c0, q0, old(counter), old(quiesced), counter, quiesced, list, i, true);
    }

    method DoDrainedBegin(n: Node, ghost rank: Node -> nat, ghost top: nat)
      requires Ranked(shape, rank, top) && n in shape.nodes
      requires CountsOk(shape, counter, quiesced, direct, n, 1) && EdgesOk(shape, rank, counter, quiesced, rank(n))
      modifies this`counter, this`quiesced
      ensures OrderFrom(shape, rank, counter, quiesced, direct, rank(n))
      ensures SameBelow(shape, rank, rank(n), old(counter), old(quiesced), counter, quiesced)
      decreases top - rank(n), 1
    {
      var was := counter[n];
      Bumped(shape, rank, n, counter, quiesced, direct, 1);
      counter := counter[n := was + 1];
      if was == 0 {
        ParentDrainedBegin(n, rank, top);
        LevelDone(shape, rank, n, old(counter), old(quiesced), counter, quiesced,
                  old(quiesced) + Prefix(shape.parents[n], |shape.parents[n]|), true);
      }
    }

    method ParentDrainedEndSingle(c: Edge, ghost rank: Node -> nat, ghost top: nat, ghost k: nat)
      requires Ranked(shape, rank, top)
      requires OrderFrom(shape, rank, counter, quiesced, direct, k)
      requires c in shape.edges && c in quiesced
      requires c in shape.owner ==> rank(shape.owner[c]) >= k
      requires c in shape.below ==> rank(shape.below[c]) < k
      modifies this`counter, this`quiesced
      ensures OrderFrom(shape, rank, counter, quiesced, direct, k)
      ensures SameBelow(shape, rank, k, old(counter), old(quiesced) - {c}, counter, quiesced)
      decreases if k <= top then top - k else 0, 2
    {
      quiesced := quiesced - {c};
      ghost var q0 := quiesced;
      if c in shape.owner {
        var n := shape.owner[c];
        MarkEdge(shape, rank, k, counter, old(quiesced), q0, direct, c, n, false);
        DoDrainedEnd(n, rank, top);
        ClimbOverEdge(shape, rank, k, n, c, old(counter), q0, counter, quiesced);
      } else {
        MarkRootEdge(shape, rank, k, counter, old(quiesced), q0, direct, c, false);
      }
    }

    method ParentDrainedEnd(n: Node, ghost rank: Node -> nat, ghost top: nat)
      requires Ranked(shape, rank, top) && n in shape.nodes
      requires OrderFrom(shape, rank, counter, quiesced, direct, rank(n) + 1)
      requires forall i :: 0 <= i < |shape.parents[n]| ==> shape.parents[n][i] in quiesced
      modifies this`counter, this`quiesced
      ensures OrderFrom(shape, rank, counter, quiesced, direct, rank(n) + 1)
      ensures SameBelow(shape, rank, rank(n) + 1, old(counter),
              old(quiesced) - Prefix(shape.parents[n], |shape.parents[n]|), counter, quiesced)
      decreases top - rank(n), 0
    {
      var i := 0;
      var list := shape.parents[n];
      while i < |list|
        invariant 0 <= i <= |list|
        invariant OrderFrom(shape, rank, counter, quiesced, direct, rank(n) + 1)
        invariant SameBelow(shape, rank, rank(n) + 1, old(counter), old(quiesced) - Prefix(list, i), counter, quiesced)
      {
        EndNext(n, list, i, rank, top, old(counter), old(quiesced));
        i := i + 1;
      }
    }

    /** One round of that loop */
    method EndNext(n: Node, list: seq<Edge>, i: nat, ghost rank: Node -> nat, ghost top: nat, ghost c0: map<Node, int>,
        ghost q0: set<Edge>)
      requires Ranked(shape, rank, top) && n in shape.nodes && list == shape.parents[n] && i < |list|
      requires forall j :: 0 <= j < |list| ==> list[j] in q0
      requires OrderFrom(shape, rank, counter, quiesced, direct, rank(n) + 1)
      requires SameBelow(shape, rank, rank(n) + 1, c0, q0 - Prefix(list, i), counter, quiesced)
      modifies this`counter, this`quiesced
      ensures OrderFrom(shape, rank, counter, quiesced, direct, rank(n) + 1)
      ensures SameBelow(shape, rank, rank(n) + 1, c0, q0 - Prefix(list, i + 1), counter, quiesced)
      decreases if rank(n) + 1 <= top then top - rank(n) - 1 else 0, 3
    {
      NextEdge(shape, rank, top, n, i);
      NextAsBefore(shape, rank, n, c0, q0, counter, quiesced, i, false);
      ParentDrainedEndSingle(list[i], rank, top, rank(n) + 1);
      VisitNext(shape, rank, rank(n) + 1, c0, q0, old(counter), old(quiesced), counter, quiesced, list, i, false);
    }

    method DoDrainedEnd(n: Node, ghost rank: Node -> nat, ghost top: nat)
      requires Ranked(shape, rank, top) && n in shape.nodes
      requires CountsOk(shape, counter, quiesced, direct, n, -1) && EdgesOk(shape, rank, counter, quiesced, rank(n))
      modifies this`counter, this`quiesced
      ensures OrderFrom(shape, rank, counter, quiesced, direct, rank(n))
      ensures SameBelow(shape, rank, rank(n), old(counter), old(quiesced), counter, quiesced)
      decreases top - rank(n), 1
    {
      var was := counter[n];
      Bumped(shape, rank, n, counter, quiesced, direct, -1);
      assert was > 0;
      counter := counter[n := was - 1];
      if was == 1 {
        ParentDrainedEnd(n, rank, top);
        LevelDone(shape, rank, n, old(counter), old(quiesced), counter, quiesced,
                  old(quiesced) - Prefix(shape.parents[n], |shape.parents[n]|), false);
      }
    }

    method DrainedBegin(bs: Node)
      requires Valid() && bs in shape.nodes
      modifies this`counter, this`quiesced, this`direct
      ensures Valid() && direct == old(direct) + multiset{bs}
    {
      ghost var rank, top := RankedByHeight(shape);
      direct := direct + multiset{bs};
      DoDrainedBegin(bs, rank, top);
      BalancedFromRank(shape, rank, rank(bs), old(counter), old(quiesced), old(direct), counter, quiesced, direct);
    }

    method DrainedEnd(bs: Node)
      requires Valid() && bs in shape.nodes && bs in direct
      modifies this`counter, this`quiesced, this`direct
      ensures Valid() && direct == old(direct) - multiset{bs}
    {
      ghost var rank, top := RankedByHeight(shape);
      direct := direct - multiset{bs};
      DoDrainedEnd(bs, rank, top);
      BalancedFromRank(shape, rank, rank(bs), old(counter), old(quiesced), old(direct), counter, quiesced, direct);
    }

    /** `bdrv_replace_child_noperm`: the edge moves, and its drain ends when the new node is not drained. */
    method ReplaceChildNoperm(child: Edge, bs: Option<Node>)
      requires BalancedBut(shape, counter, quiesced, direct, child) && child in shape.edges
      requires bs.Some? ==> bs.value in shape.nodes && child in quiesced
      requires Acyclic(Relinked(shape, child, bs).Rel())
      modifies this`shape, this`counter, this`quiesced
      ensures Valid() && shape == Relinked(old(shape), child, bs)
      ensures bs.Some? && old(counter)[bs.value] > 0 ==> child in quiesced
      ensures bs.None? ==> child !in quiesced
    {
      RelinkedBut(shape, Relinked(shape, child, bs), counter, quiesced, direct, child, bs);
      shape := Relinked(shape, child, bs);
      if child in quiesced && (bs.None? || counter[bs.value] == 0) {
        EndMovedEdge(child);
      } else {
        MovedEdgeAgrees(shape, child, counter, quiesced, direct);
      }
    }

    method EndMovedEdge(child: Edge)
      requires BalancedBut(shape, counter, quiesced, direct, child) && child in shape.edges && child in quiesced
      requires Acyclic(shape.Rel()) && (child in shape.below
               ==> shape.below[child] in counter && counter[shape.below[child]] == 0)
      modifies this`counter, this`quiesced
      ensures Valid()
    {
      ghost var rank, top := RankedByHeight(shape);
      ghost var k := if child in shape.below then rank(shape.below[child]) + 1 else 0;
      ParentDrainedEndSingle(child, rank, top, k);
      MovedEdgeSettled(shape, rank, k, child, old(counter), old(quiesced), counter, quiesced, direct);
    }

    /** `bdrv_drain`: a matched pair leaves every counter and every edge as it was. */
    method Drain(bs: Node)
      requires Valid() && bs in shape.nodes
      modifies this`counter, this`quiesced, this`direct
      ensures Valid() && counter == old(counter) && quiesced == old(quiesced) && direct == old(direct)
    {
      DrainedBegin(bs);
      DrainedEnd(bs);
      assert direct == old(direct);
      DrainStateDetermined(shape, old(counter), old(quiesced), shape, counter, quiesced, direct);
    }

    /** `bdrv_replace_child_tran` to a drained node or to none, and its abort when `ok` is false: the abort leaves no
        trace. */
    method ReplaceChildTran(child: Edge, bs: Option<Node>, ok: bool)
      requires Valid() && child in quiesced && bs != Some(shape.below[child])
      requires bs.Some? ==> bs.value in shape.nodes && counter[bs.value] > 0
                            && Acyclic(Relinked(shape, child, bs).Rel())
      modifies this`shape, this`counter, this`quiesced
      ensures Valid() && shape.nodes == old(shape.nodes)
      ensures ok ==> shape == Relinked(old(shape), child, bs)
      ensures !ok ==> SameAttachments(shape, old(shape)) && counter == old(counter) && quiesced == old(quiesced)
    {
      var was := shape.below[child];
      BalancedEdge(shape, counter, quiesced, direct, child);
      DetachedAcyclic(shape, child);
      ReplaceChildNoperm(child, bs);
      if !ok {
        MovedBack(old(shape), child, bs);
        AbortReplace(child, was, old(shape), old(counter), old(quiesced));
      }
    }

    method AbortReplace(child: Edge, was: Node, ghost s: Shape, ghost c: map<Node, int>, ghost q: set<Edge>)
      requires Balanced(s, c, q, direct) && SameAttachments(Relinked(shape, child, Some(was)), s)
      requires Valid() && child in shape.edges && was in shape.nodes && (child in shape.below ==> child in quiesced)
      requires Acyclic(Relinked(shape, child, Some(was)).Rel())
      modifies this`shape, this`counter, this`quiesced
      ensures Valid() && shape == Relinked(old(shape), child, Some(was)) && counter == c && quiesced == q
    {
      MoveBack(child, was);
      DrainStateDetermined(s, c, q, shape, counter, quiesced, direct);
    }

    /** `bdrv_replace_child_abort`: a detached edge is drained first. */
    method MoveBack(child: Edge, was: Node)
      requires Valid() && child in shape.edges && was in shape.nodes && (child in shape.below ==> child in quiesced)
      requires Acyclic(Relinked(shape, child, Some(was)).Rel())
      modifies this`shape, this`counter, this`quiesced
      ensures Valid() && shape == Relinked(old(shape), child, Some(was))
    {
      if child !in shape.below {
        BeginNewEdge(child);
      } else {
        BalancedEdge(shape, counter, quiesced, direct, child);
      }
      ReplaceChildNoperm(child, Some(was));
    }

    method DrainBoth(a: Node, b: Node)
      requires Valid() && a in shape.nodes && b in shape.nodes
      modifies this`counter, this`quiesced, this`direct
      ensures Valid() && direct == old(direct) + multiset{a, b}
    {
      DrainedBegin(a);
      DrainedBegin(b);
    }

    /** The nodes that the edge leaves and reaches are drained, and so the edge is. */
    method DrainForMove(child: Edge, bs: Node)
      requires Valid() && child in shape.below && bs in shape.nodes
      modifies this`counter, this`quiesced, this`direct
      ensures Valid() && direct == old(direct) + multiset{shape.below[child], bs}
      ensures child in quiesced && counter[bs] > 0
    {
      DrainBoth(shape.below[child], bs);
      DrainedMeans(shape, counter, quiesced, direct, shape.below[child], bs, child);
    }

    method UndrainBoth(a: Node, b: Node)
      requires Valid() && a in shape.nodes && b in shape.nodes && multiset{a, b} <= direct
      modifies this`counter, this`quiesced, this`direct
      ensures Valid() && direct == old(direct) - multiset{a, b}
    {
      assert forall n :: multiset{a, b}[n] <= direct[n];
      DrainedEnd(a);
      DrainedEnd(b);
    }

    method ReplaceDrained(child: Edge, bs: Node, ok: bool)
      requires Valid() && child in shape.below && bs in shape.nodes && bs != shape.below[child]
      requires Acyclic(Relinked(shape, child, Some(bs)).Rel())
      modifies this
      ensures Valid() && direct == old(direct) + multiset{old(shape).below[child], bs}
              && shape.nodes == old(shape).nodes
      ensures if ok then shape == Relinked(old(shape), child, Some(bs)) else SameAttachments(shape, old(shape))
    {
      DrainForMove(child, bs);
      ReplaceChildTran(child, Some(bs), ok);
    }

    /** `bdrv_replace_child_bs`, with the outcome of the permission update as `ok`: a failure
        moves the edge back and leaves no trace in the drain state. */
    method ReplaceChildBs(child: Edge, bs: Node, ok: bool)
      requires Valid() && child in shape.below && bs in shape.nodes && bs != shape.below[child]
      requires Acyclic(Relinked(shape, child, Some(bs)).Rel())
      modifies this
      ensures Valid() && direct == old(direct)
      ensures ok ==> shape == Relinked(old(shape), child, Some(bs))
      ensures !ok ==> SameAttachments(shape, old(shape)) && counter == old(counter) && quiesced == old(quiesced)
    {
      var was := shape.below[child];
      ReplaceDrained(child, bs, ok);
      UndrainBoth(was, bs);
      SectionsClosed(old(shape), old(counter), old(quiesced), old(direct), shape, counter, quiesced, direct, was, bs);
    }

    /** The drain half of `bdrv_attach_child_common`: a new edge starts quiesced and settles on the node below. */
    method AttachChild(c: Edge, p: Option<Node>, bs: Node)
      requires Valid() && c !in shape.edges && bs in shape.nodes && (p.Some? ==> p.value in shape.nodes)
      requires Acyclic(Relinked(WithEdge(shape, c, p), c, Some(bs)).Rel())
      modifies this`shape, this`counter, this`quiesced
      ensures Valid() && shape == Relinked(WithEdge(old(shape), c, p), c, Some(bs))
    {
      WithEdgeBalanced(shape, counter, quiesced, direct, c, p);
      shape := WithEdge(shape, c, p);
      BeginNewEdge(c);
      ReplaceChildNoperm(c, Some(bs));
    }

    method BeginNewEdge(c: Edge)
      requires Valid() && c in shape.edges && c !in quiesced && c !in shape.below
      modifies this`counter, this`quiesced
      ensures BalancedBut(shape, counter, quiesced, direct, c) && c in quiesced
    {
      ghost var rank, top := RankedByHeight(shape);
      ParentDrainedBeginSingle(c, rank, top, 0);
    }
  }
}
