/** What the permission policies mean in a refreshed graph, edge by edge and permission by permission: what reaches a
    backing file, a filtered node, and the children that hold data or metadata. */
module PermissionPolicies {
  import opened Dag
  import opened BlockGraph
  import opened Permissions

  /** Everything is shared with a user of `e`'s node if the node was opened that way. */
  predicate Forced(g: Config, e: Edge) {
    e in g.below && g.below[e] in g.info && g.info[g.below[e]].forceShare
  }

  /** Edge `e` follows the policy of its owner. */
  ghost predicate Follows(g: Config, p: PermMap, e: Edge) {
    g.Total(p) && g.Decided(e) && g.Settled(p, g.owner[e])
  }

  /** A writer; rewriting what is there counts. */
  ghost predicate Written(g: Config, p: PermMap, n: Node) {
    g.Needed(p, n, Write) || g.Needed(p, n, WriteUnchanged)
  }

  lemma CumulativeMeans(g: Config, p: PermMap, n: Node, x: Perm)
    ensures x in g.Cumulative(p, n).perm <==> g.Needed(p, n, x)
    ensures x in g.Cumulative(p, n).shared <==> g.Shared(p, n, x)
  {
  }

  /** A filter asks for exactly what its users need, and shares what they all share. */
  lemma FilteredEdge(g: Config, p: PermMap, e: Edge, x: Perm)
    requires Follows(g, p, e) && g.role[e].filtered
    ensures x in p[e].perm <==> g.Needed(p, g.owner[e], x)
    ensures x in p[e].shared <==> g.Shared(p, g.owner[e], x) || Forced(g, e)
  {
    AllPerms();
    CumulativeMeans(g, p, g.owner[e], x);
  }

  /** A backing file is only read, for users who read. Reading and rewriting what is there is always shared with others;
      changing it only if all users of the overlay share that, or the overlay is inactive. */
  lemma BackingEdge(g: Config, p: PermMap, e: Edge, x: Perm)
    requires Follows(g, p, e) && g.role[e].cow && !g.role[e].filtered && g.info[g.owner[e]].driver.DefaultDriver?
    ensures x in p[e].perm <==> x == ConsistentRead && g.Needed(p, g.owner[e], x)
    ensures x in p[e].shared <==>
            || Forced(g, e) || x == ConsistentRead || x == WriteUnchanged
            || g.Shared(p, g.owner[e], Write) || g.info[g.owner[e]].inactive
  {
    AllPerms();
    CumulativeMeans(g, p, g.owner[e], x);
    CumulativeMeans(g, p, g.owner[e], Write);
  }

  /** What children that hold data or metadata are used for. A format that keeps metadata in a child writes and
      resizes it as long as it is itself writable; data that is written may have to grow. The raw format adds no
      writing. */
  lemma StorageEdgeNeeds(g: Config, p: PermMap, e: Edge)
    requires Follows(g, p, e) && !g.role[e].filtered && !g.role[e].cow
    ensures var (n, i, r) := (g.owner[e], g.info[g.owner[e]], g.role[e]);
            var upkeep := !i.driver.RawFormat? && r.metadata && i.writable;
            var grows := !i.driver.RawFormat? && r.data && Written(g, p, n);
            && (ConsistentRead in p[e].perm <==> g.Needed(p, n, ConsistentRead) || (r.metadata && !i.noIo))
            && (Write in p[e].perm <==> g.Needed(p, n, Write) || upkeep || grows)
            && (WriteUnchanged in p[e].perm <==> g.Needed(p, n, WriteUnchanged))
            && (Resize in p[e].perm <==> g.Needed(p, n, Resize) || upkeep || grows)
  {
    AllPerms();
    forall x ensures x in g.Cumulative(p, g.owner[e]).perm <==> g.Needed(p, g.owner[e], x) {
      CumulativeMeans(g, p, g.owner[e], x);
    }
  }

  /** What they are shared for: an active node lets nobody else write or resize its metadata, nor resize its data. */
  lemma StorageEdgeShares(g: Config, p: PermMap, e: Edge)
    requires Follows(g, p, e) && !g.role[e].filtered && !g.role[e].cow && !Forced(g, e)
    ensures var (n, i, r) := (g.owner[e], g.info[g.owner[e]], g.role[e]);
            && (ConsistentRead in p[e].shared <==> g.Shared(p, n, ConsistentRead))
            && (Write in p[e].shared <==> i.inactive || (!r.metadata && g.Shared(p, n, Write)))
            && (WriteUnchanged in p[e].shared <==> g.Shared(p, n, WriteUnchanged))
            && (Resize in p[e].shared <==> i.inactive || (!r.metadata && !r.data && g.Shared(p, n, Resize)))
  {
    AllPerms();
    forall x ensures x in g.Cumulative(p, g.owner[e]).shared <==> g.Shared(p, g.owner[e], x) {
      CumulativeMeans(g, p, g.owner[e], x);
    }
  }

  /** The checks of a node, in terms of its users */
  lemma NodeOkIff(g: Config, p: PermMap, n: Node)
    requires n in g.info
    ensures g.NodeOk(n, g.Cumulative(p, n)) <==>
            && (Written(g, p, n) ==> g.info[n].writable && (g.Needed(p, n, Resize) || g.info[n].sizeAligned))
            && (g.info[n].driver.NoDriver? || g.accepts(n, g.Cumulative(p, n)))
  {
    CumulativeMeans(g, p, n, Write);
    CumulativeMeans(g, p, n, WriteUnchanged);
    CumulativeMeans(g, p, n, Resize);
  }

  // ---- a refreshed graph ----

  /** An edge that a refresh from `starts` has decided */
  ghost predicate Refreshed(g: Config, p: PermMap, starts: set<Node>, e: Edge) {
    g.Total(p) && RefreshedBelow(g, p, starts) && g.Decided(e) && Leads(g, starts, g.owner[e])
  }

  lemma RefreshedFollows(g: Config, p: PermMap, starts: set<Node>, e: Edge)
    requires Refreshed(g, p, starts, e)
    ensures Follows(g, p, e) && Leads(g, starts, g.below[e]) && g.below[e] in g.info
    ensures !g.Conflict(p, g.below[e]) && g.NodeOk(g.below[e], g.Cumulative(p, g.below[e]))
  {
    var r := RelOf(g.owner, g.below);
    var s :| s in starts && Reach(r, s, g.owner[e]);
    ReachSelf(r, g.below[e]);
    ReachEdge(r, g.owner[e], g.below[e], g.below[e]);
    ReachTrans(r, s, g.owner[e], g.below[e]);
  }

  /** What one user does not share, no other one has. */
  lemma NotShared(g: Config, p: PermMap, starts: set<Node>, e: Edge, b: Edge, x: Perm)
    requires Refreshed(g, p, starts, e) && x !in p[e].shared
    requires b != e && b in g.below && b in p && g.below[b] == g.below[e]
    ensures x !in p[b].perm
  {
    RefreshedFollows(g, p, starts, e);
    assert !g.Clash(p, g.below[e], e, b);
  }

  /** Nobody else resizes the data of an active node. */
  lemma DataNotResized(g: Config, p: PermMap, starts: set<Node>, e: Edge, b: Edge)
    requires Refreshed(g, p, starts, e) && g.role[e].data && !g.role[e].filtered && !g.role[e].cow
    requires !g.info[g.owner[e]].inactive && !Forced(g, e)
    requires b != e && b in g.below && b in p && g.below[b] == g.below[e]
    ensures Resize !in p[b].perm
  {
    RefreshedFollows(g, p, starts, e);
    StorageEdgeShares(g, p, e);
    NotShared(g, p, starts, e, b, Resize);
  }

  /** Nobody else writes or resizes the metadata of an active node. */
  lemma MetadataAlone(g: Config, p: PermMap, starts: set<Node>, e: Edge, b: Edge)
    requires Refreshed(g, p, starts, e) && g.role[e].metadata && !g.role[e].filtered && !g.role[e].cow
    requires !g.info[g.owner[e]].inactive && !Forced(g, e)
    requires b != e && b in g.below && b in p && g.below[b] == g.below[e]
    ensures Write !in p[b].perm && Resize !in p[b].perm
  {
    RefreshedFollows(g, p, starts, e);
    StorageEdgeShares(g, p, e);
    NotShared(g, p, starts, e, b, Write);
    NotShared(g, p, starts, e, b, Resize);
  }

  /** A node that only serves as backing file is never written, so it may be read-only. */
  lemma BackingNotWritten(g: Config, p: PermMap, starts: set<Node>, n: Node)
    requires forall e :: e in g.below && g.below[e] == n && e in p ==>
               && Refreshed(g, p, starts, e) && g.role[e].cow && !g.role[e].filtered
               && g.info[g.owner[e]].driver.DefaultDriver?
    ensures !Written(g, p, n) && !g.Needed(p, n, Resize)
  {
    forall e, x | e in g.below && g.below[e] == n && e in p && x in p[e].perm ensures x == ConsistentRead {
      RefreshedFollows(g, p, starts, e);
      BackingEdge(g, p, e, x);
    }
  }

  /** An edge that passes writes on: to the node behind a filter, or to a child that holds data */
  predicate PassesWrites(g: Config, e: Edge)
    requires e in g.role
  {
    g.role[e].filtered || (g.role[e].data && !g.role[e].cow)
  }

  /** The edges lead from node `n` down, one from where the one before leads to. */
  ghost predicate PathOf(g: Config, n: Node, path: seq<Edge>)
    decreases |path|
  {
    path == [] || (
      && g.Decided(path[0]) && path[0] in g.role && g.owner[path[0]] == n && PassesWrites(g, path[0])
      && PathOf(g, g.below[path[0]], path[1..]))
  }

  function EndOf(g: Config, n: Node, path: seq<Edge>): Node {
    if path == [] || path[|path| - 1] !in g.below then n else g.below[path[|path| - 1]]
  }

  lemma WriteNext(g: Config, p: PermMap, starts: set<Node>, e: Edge)
    requires Refreshed(g, p, starts, e) && PassesWrites(g, e) && Written(g, p, g.owner[e])
    ensures Written(g, p, g.below[e]) && g.info[g.below[e]].writable && Leads(g, starts, g.below[e])
  {
    RefreshedFollows(g, p, starts, e);
    if g.role[e].filtered {
      FilteredEdge(g, p, e, Write);
      FilteredEdge(g, p, e, WriteUnchanged);
    } else {
      StorageEdgeNeeds(g, p, e);
    }
    assert Write in p[e].perm || WriteUnchanged in p[e].perm;
    NodeOkIff(g, p, g.below[e]);
  }

  /** A writer reaches everything that its data may go to: whatever filters and data children lead to is writable, and
      someone has the permission to write it. */
  lemma {:induction false} WritesReachDown(g: Config, p: PermMap, starts: set<Node>, n: Node, path: seq<Edge>)
    requires g.Total(p) && RefreshedBelow(g, p, starts) && Leads(g, starts, n) && Written(g, p, n) && PathOf(g, n, path)
    ensures var m := EndOf(g, n, path); m in g.info && g.info[m].writable && Written(g, p, m)
    decreases |path|
  {
    if path == [] {
      NodeOkIff(g, p, n);
    } else {
      WriteNext(g, p, starts, path[0]);
      WritesReachDown(g, p, starts, g.below[path[0]], path[1..]);
    }
  }
}
