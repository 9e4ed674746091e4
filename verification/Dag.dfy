/** Reachability and acyclicity of the finite "parent uses child" relation that the
    block graph, the drain climb, the permission pass and request waiting share. */
module Dag {

  type Node = nat

  /** Pairs `(parent, child)`. */
  type Rel = set<(Node, Node)>

  ghost predicate IsPath(r: Rel, p: seq<Node>, a: Node, b: Node) {
    && |p| > 0 && p[0] == a && p[|p| - 1] == b
    && forall i :: 0 <= i < |p| - 1 ==> (p[i], p[i + 1]) in r
  }

  ghost predicate Reach(r: Rel, a: Node, b: Node) {
    exists p :: IsPath(r, p, a, b)
  }

  /** No edge closes a cycle: nothing below an edge leads back to its parent. */
  ghost predicate Acyclic(r: Rel) {
    forall a, b :: (a, b) in r ==> !Reach(r, b, a)
  }

  ghost function Nodes(r: Rel): set<Node> {
    (set e | e in r :: e.0) + (set e | e in r :: e.1)
  }

  ghost function Below(r: Rel, a: Node): set<Node> {
    set b | b in Nodes(r) + {a} && Reach(r, a, b)
  }

  /** The termination measure of every walk down the graph. */
  ghost function Height(r: Rel, a: Node): nat {
    |Below(r, a)|
  }

  lemma ReachSelf(r: Rel, a: Node)
    ensures Reach(r, a, a)
  {
    assert IsPath(r, [a], a, a);
  }

  lemma ReachEdge(r: Rel, a: Node, b: Node, c: Node)
    requires (a, b) in r && Reach(r, b, c)
    ensures Reach(r, a, c)
  {
    var p :| IsPath(r, p, b, c);
    assert IsPath(r, [a] + p, a, c);
  }

  lemma ReachTrans(r: Rel, a: Node, b: Node, c: Node)
    requires Reach(r, a, b) && Reach(r, b, c)
    ensures Reach(r, a, c)
  {
    var p :| IsPath(r, p, a, b);
    var q :| IsPath(r, q, b, c);
    assert IsPath(r, p + q[1..], a, c);
  }

  lemma ReachFirst(r: Rel, a: Node, c: Node) returns (b: Node)
    requires Reach(r, a, c) && a != c
    ensures (a, b) in r && Reach(r, b, c)
  {
    var p :| IsPath(r, p, a, c);
    b := p[1];
    assert (p[0], p[1]) in r;
    assert IsPath(r, p[1..], b, c);
  }

  lemma ReachSubset(r: Rel, s: Rel, a: Node, b: Node)
    requires r <= s && Reach(r, a, b)
    ensures Reach(s, a, b)
  {
    var p :| IsPath(r, p, a, b);
    assert IsPath(s, p, a, b);
  }

  lemma AcyclicSubset(r: Rel, s: Rel)
    requires r <= s && Acyclic(s)
    ensures Acyclic(r)
  {
    forall a, b | (a, b) in r ensures !Reach(r, b, a) {
      if Reach(r, b, a) { ReachSubset(r, s, b, a); }
    }
  }

  lemma ReachNodes(r: Rel, a: Node, b: Node)
    requires Reach(r, a, b)
    ensures b in Nodes(r) + {a}
  {
    var p :| IsPath(r, p, a, b);
    if |p| > 1 {
      assert (p[|p| - 2], p[|p| - 2 + 1]) in r;
    }
  }

  /** Walking down an edge strictly decreases the height, so the walks terminate. */
  lemma HeightDecreases(r: Rel, a: Node, b: Node)
    requires Acyclic(r) && (a, b) in r
    ensures Height(r, b) < Height(r, a)
  {
    forall c | c in Below(r, b) ensures c in Below(r, a) {
      ReachEdge(r, a, b, c);
      ReachNodes(r, a, c);
    }
    ReachSelf(r, a);
    assert a in Below(r, a) && a !in Below(r, b);
    SubsetSize(Below(r, b), Below(r, a) - {a});
  }

  lemma {:induction false} SubsetSize(s: set<Node>, t: set<Node>)
    requires s <= t
    ensures |s| <= |t|
  {
    if s != {} {
      var x :| x in s;
      SubsetSize(s - {x}, t - {x});
    }
  }

  lemma HeightBound(r: Rel, a: Node)
    ensures Height(r, a) <= |Nodes(r)| + 1
  {
    SubsetSize(Below(r, a), Nodes(r) + {a});
  }

  /** A path in the relation with one edge added either avoids that edge or splits at it. */
  lemma {:induction false} PathWithEdge(r: Rel, a: Node, b: Node, p: seq<Node>, x: Node, y: Node)
    requires IsPath(r + {(a, b)}, p, x, y)
    ensures Reach(r, x, y) || (Reach(r, x, a) && Reach(r, b, y))
    decreases |p|
  {
    if |p| == 1 {
      ReachSelf(r, x);
    } else {
      var s := r + {(a, b)};
      assert (p[0], p[0 + 1]) in s;
      assert IsPath(s, p[1..], p[1], y) by {
        forall i | 0 <= i < |p[1..]| - 1 ensures (p[1..][i], p[1..][i + 1]) in s {
          assert (p[i + 1], p[i + 1 + 1]) in s;
        }
      }
      PathWithEdge(r, a, b, p[1..], p[1], y);
      if (x, p[1]) in r {
        if Reach(r, p[1], y) { ReachEdge(r, x, p[1], y); }
        if Reach(r, p[1], a) { ReachEdge(r, x, p[1], a); }
      } else {
        ReachSelf(r, a);
      }
    }
  }

  lemma ReachWithEdge(r: Rel, a: Node, b: Node, x: Node, y: Node)
    requires Reach(r + {(a, b)}, x, y)
    ensures Reach(r, x, y) || (Reach(r, x, a) && Reach(r, b, y))
  {
    var p :| IsPath(r + {(a, b)}, p, x, y);
    PathWithEdge(r, a, b, p, x, y);
  }

  /** Adding one edge keeps the relation acyclic exactly when its child does not lead to its parent. */
  lemma AddEdgeAcyclic(r: Rel, a: Node, b: Node)
    requires Acyclic(r)
    ensures Acyclic(r + {(a, b)}) <==> !Reach(r, b, a)
  {
    var s := r + {(a, b)};
    if Reach(r, b, a) {
      ReachSubset(r, s, b, a);
      assert (a, b) in s;
    } else {
      forall x, y | (x, y) in s ensures !Reach(s, y, x) {
        if Reach(s, y, x) {
          ReachWithEdge(r, a, b, y, x);
          if (x, y) in r && Reach(r, y, a) && Reach(r, b, x) {
            ReachEdge(r, x, y, a);
            ReachTrans(r, b, x, a);
          }
        }
      }
    }
  }

  /** Reaching `a` never needs an edge that leaves `a`. */
  lemma {:induction false} PathAvoids(r: Rel, p: seq<Node>, b: Node, a: Node, s: Rel)
    requires IsPath(r, p, b, a)
    requires forall e :: e in r && e.0 != a ==> e in s
    ensures Reach(s, b, a)
    decreases |p|
  {
    if b == a {
      ReachSelf(s, a);
    } else {
      assert (p[0], p[0 + 1]) in r;
      assert IsPath(r, p[1..], p[1], a) by {
        forall i | 0 <= i < |p[1..]| - 1 ensures (p[1..][i], p[1..][i + 1]) in r {
          assert (p[i + 1], p[i + 1 + 1]) in r;
        }
      }
      PathAvoids(r, p[1..], p[1], a, s);
      ReachEdge(s, b, p[1], a);
    }
  }

  lemma ReachAvoids(r: Rel, s: Rel, b: Node, a: Node)
    requires Reach(r, b, a)
    requires forall e :: e in r && e.0 != a ==> e in s
    ensures Reach(s, b, a)
  {
    var p :| IsPath(r, p, b, a);
    PathAvoids(r, p, b, a, s);
  }
}
