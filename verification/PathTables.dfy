/**
 The [sw1][sw2] -> (distance, intermediate) table that l2_multi and topo_proactive share, and
 the paths read back from it.  Both modules carry the same three functions.
 */
module PathTables {
  import opened Wrappers
  import opened Graphs

  datatype Hop = Hop(dist: nat, via: Option<Switch>)

  // A missing key stands for the default (None, None).
  type PathMap = map<(Switch, Switch), Hop>

  // What one entry promises: a switch reaches itself in 0 hops, an entry without an
  // intermediate is one adjacency, and an intermediate splits the entry into two
  // others that together are no longer.
  ghost predicate EntryOk(adj: Adjacency, pm: PathMap, e: (Switch, Switch))
    requires e in pm
  {
    var (a, b) := e;
    && (a == b ==> pm[e] == Hop(0, None))
    && (a != b ==> pm[e].dist > 0)
    && match pm[e].via
       case None => a != b ==> pm[e].dist == 1 && e in adj
       case Some(m) =>
         && m != a && m != b && (a, m) in pm && (m, b) in pm
         && pm[(a, m)].dist + pm[(m, b)].dist <= pm[e].dist
  }

  ghost predicate WellSplit(adj: Adjacency, pm: PathMap) {
    forall e {:trigger EntryOk(adj, pm, e)} :: e in pm ==> EntryOk(adj, pm, e)
  }

  // The entry for (a, b) is at least as good as every walk through s.
  ghost predicate Covers(adj: Adjacency, pm: PathMap, a: Switch, b: Switch, s: set<Switch>) {
    forall p :: IsWalk(adj, p, a, b) && Through(p, s) ==> (a, b) in pm && pm[(a, b)].dist <= |p| - 1
  }

  // pm is exact for the graph: it is well split and no walk beats it.
  ghost predicate Exact(adj: Adjacency, pm: PathMap) {
    && WellSplit(adj, pm)
    && forall a, b, p :: a != b && IsWalk(adj, p, a, b) ==> (a, b) in pm && pm[(a, b)].dist <= |p| - 1
  }

  ghost predicate Improves(pm: PathMap, pm': PathMap) {
    forall e :: e in pm ==> e in pm' && pm'[e].dist <= pm[e].dist
  }

  lemma CoversImproved(adj: Adjacency, pm: PathMap, pm': PathMap, a: Switch, b: Switch, s: set<Switch>)
    requires Improves(pm, pm') && Covers(adj, pm, a, b, s)
    ensures Covers(adj, pm', a, b, s)
  {
  }

  // ---- one relaxation of the triple loop ----

  // The body of the innermost loop, lines 94-100.
  function Relax(pm: PathMap, k: Switch, i: Switch, j: Switch): PathMap {
    if (i, k) in pm && (k, j) in pm
       && ((i, j) !in pm || pm[(i, k)].dist + pm[(k, j)].dist < pm[(i, j)].dist)
    then pm[(i, j) := Hop(pm[(i, k)].dist + pm[(k, j)].dist, Some(k))]
    else pm
  }

  lemma RelaxKeeps(adj: Adjacency, pm: PathMap, k: Switch, i: Switch, j: Switch)
    requires WellSplit(adj, pm)
    requires (i, i) in pm && (j, j) in pm
    ensures WellSplit(adj, Relax(pm, k, i, j)) && Improves(pm, Relax(pm, k, i, j))
  {
    var pm' := Relax(pm, k, i, j);
    assert EntryOk(adj, pm, (i, i)) && EntryOk(adj, pm, (j, j));
    if pm' != pm {
      assert EntryOk(adj, pm, (i, k)) && EntryOk(adj, pm, (k, j));
      forall e | e in pm'
        ensures EntryOk(adj, pm', e)
      {
        if e != (i, j) {
          assert EntryOk(adj, pm, e);
        }
      }
    }
  }

  // After relaxing over k, the entry for (i, j) is as good as every walk through s and k.
  lemma RelaxCovers(adj: Adjacency, pm: PathMap, k: Switch, i: Switch, j: Switch, s: set<Switch>)
    requires Covers(adj, pm, i, j, s) && Covers(adj, pm, i, k, s) && Covers(adj, pm, k, j, s)
    ensures Covers(adj, Relax(pm, k, i, j), i, j, s + {k})
  {
    var pm' := Relax(pm, k, i, j);
    forall p | IsWalk(adj, p, i, j) && Through(p, s + {k})
      ensures (i, j) in pm' && pm'[(i, j)].dist <= |p| - 1
    {
      if !Through(p, s) {
        var f, g := CutAt(adj, p, i, j, k, s);
        assert pm[(i, k)].dist <= |p[..f + 1]| - 1;
        assert pm[(k, j)].dist <= |p[g..]| - 1;
      }
    }
  }

  // While the loops run for intermediate k, the pairs already relaxed cover walks through
  // seen and k, the others walks through seen.
  ghost predicate Progress(adj: Adjacency, pm: PathMap, nodes: set<Switch>, seen: set<Switch>,
                           k: Switch, done: set<(Switch, Switch)>) {
    && WellSplit(adj, pm)
    && (forall a :: a in nodes ==> (a, a) in pm)
    && forall a, b :: a in nodes && b in nodes ==>
         Covers(adj, pm, a, b, if (a, b) in done then seen + {k} else seen)
  }

  lemma RelaxProgress(adj: Adjacency, pm: PathMap, nodes: set<Switch>, seen: set<Switch>,
                      k: Switch, done: set<(Switch, Switch)>, i: Switch, j: Switch)
    requires Progress(adj, pm, nodes, seen, k, done)
    requires i in nodes && j in nodes && k in nodes
    ensures Progress(adj, Relax(pm, k, i, j), nodes, seen, k, done + {(i, j)})
  {
    RelaxKeeps(adj, pm, k, i, j);
    forall a, b | a in nodes && b in nodes
      ensures Covers(adj, Relax(pm, k, i, j), a, b, if (a, b) in done + {(i, j)} then seen + {k} else seen)
    {
      var s := if (a, b) in done then seen + {k} else seen;
      assert Covers(adj, pm, a, b, s);
      CoversImproved(adj, pm, Relax(pm, k, i, j), a, b, s);
      if (a, b) == (i, j) {
        CoversLess(adj, pm, i, j, k, seen, done);
        CoversLess(adj, pm, i, k, k, seen, done);
        CoversLess(adj, pm, k, j, k, seen, done);
        RelaxCovers(adj, pm, k, i, j, seen);
      }
    }
  }

  lemma CoversLess(adj: Adjacency, pm: PathMap, a: Switch, b: Switch,
                   k: Switch, seen: set<Switch>, done: set<(Switch, Switch)>)
    requires Covers(adj, pm, a, b, if (a, b) in done then seen + {k} else seen)
    ensures Covers(adj, pm, a, b, seen)
  {
    forall p | IsWalk(adj, p, a, b) && Through(p, seen)
      ensures (a, b) in pm && pm[(a, b)].dist <= |p| - 1
    {
      assert Through(p, seen + {k});
    }
  }

  // When every pair has been relaxed, k has joined the switches walks may use.
  lemma ProgressNext(adj: Adjacency, pm: PathMap, nodes: set<Switch>, seen: set<Switch>,
                     k: Switch, done: set<(Switch, Switch)>, k': Switch)
    requires Progress(adj, pm, nodes, seen, k, done)
    requires forall a, b :: a in nodes && b in nodes ==> (a, b) in done
    ensures Progress(adj, pm, nodes, seen + {k}, k', {})
  {
    forall a, b | a in nodes && b in nodes
      ensures Covers(adj, pm, a, b, seen + {k})
    {
      assert (a, b) in done;
      assert Covers(adj, pm, a, b, if (a, b) in done then seen + {k} else seen);
    }
  }

  // The first loop's table, lines 83-87: the direct adjacencies and the zero diagonal.
  ghost predicate Direct(adj: Adjacency, pm: PathMap, nodes: set<Switch>) {
    && (forall e :: e in pm <==> e.0 in nodes && (e.0 == e.1 || e in adj))
    && forall e :: e in pm ==> pm[e] == if e.0 == e.1 then Hop(0, None) else Hop(1, None)
  }

  lemma InteriorOutside(p: seq<Switch>)
    requires |p| > 2
    ensures !Through(p, {})
  {
    assert p[1] !in {};
    var inner := 1;
    assert 0 < inner < |p| - 1 && p[inner] == p[1];
  }

  lemma DirectStarts(adj: Adjacency, pm: PathMap, nodes: set<Switch>, k: Switch)
    requires Direct(adj, pm, nodes)
    ensures Progress(adj, pm, nodes, {}, k, {})
  {
    forall e | e in pm
      ensures EntryOk(adj, pm, e)
    {
    }
    var none: set<Switch> := {};
    forall a, b | a in nodes && b in nodes
      ensures Covers(adj, pm, a, b, none)
    {
      forall p | IsWalk(adj, p, a, b) && Through(p, none)
        ensures (a, b) in pm && pm[(a, b)].dist <= |p| - 1
      {
        if |p| > 2 {
          InteriorOutside(p);
        }
        assert |p| == 1 || (p[0], p[0 + 1]) in adj;
      }
    }
  }

  // Once every known switch has served as intermediate, the table is exact.
  lemma ProgressEnds(adj: Adjacency, pm: PathMap, nodes: set<Switch>, seen: set<Switch>, k: Switch)
    requires Over(adj, nodes)
    requires Progress(adj, pm, nodes, seen, k, {}) && nodes == seen
    ensures Exact(adj, pm)
  {
    forall a, b, p | a != b && IsWalk(adj, p, a, b)
      ensures (a, b) in pm && pm[(a, b)].dist <= |p| - 1
    {
      WalkInteriorKnown(adj, nodes, p, a, b);
      assert Covers(adj, pm, a, b, seen);
      assert Through(p, seen);
    }
  }

  // ---- paths read back ----

  // The switches strictly between src and dst, lines 106-121.  It terminates because an
  // intermediate leaves two strictly smaller distances.
  ghost function RawPath(adj: Adjacency, pm: PathMap, src: Switch, dst: Switch): seq<Switch>
    requires WellSplit(adj, pm)
    requires src == dst || (src, dst) in pm
    decreases if src == dst then 0 else pm[(src, dst)].dist
  {
    if src == dst then []
    else
      assert EntryOk(adj, pm, (src, dst));
      match pm[(src, dst)].via
      case None => []
      case Some(m) =>
        assert EntryOk(adj, pm, (src, m)) && EntryOk(adj, pm, (m, dst));
        RawPath(adj, pm, src, m) + [m] + RawPath(adj, pm, m, dst)
  }

  // The full switch list of _get_path, lines 143-148.
  ghost function FullPath(adj: Adjacency, pm: PathMap, src: Switch, dst: Switch): seq<Switch>
    requires WellSplit(adj, pm)
    requires src == dst || (src, dst) in pm
  {
    if src == dst then [src] else [src] + RawPath(adj, pm, src, dst) + [dst]
  }

  // An intermediate splits the path read back where it splits the distance.
  lemma FullPathSplits(adj: Adjacency, pm: PathMap, src: Switch, dst: Switch) returns (m: Switch)
    requires WellSplit(adj, pm)
    requires src != dst && (src, dst) in pm && pm[(src, dst)].via.Some?
    ensures src != m && m != dst && (src, m) in pm && (m, dst) in pm
    ensures pm[(src, m)].dist > 0 && pm[(m, dst)].dist > 0
    ensures pm[(src, m)].dist + pm[(m, dst)].dist <= pm[(src, dst)].dist
    ensures FullPath(adj, pm, src, dst) == FullPath(adj, pm, src, m) + FullPath(adj, pm, m, dst)[1..]
  {
    m := pm[(src, dst)].via.value;
    assert EntryOk(adj, pm, (src, dst)) && EntryOk(adj, pm, (src, m)) && EntryOk(adj, pm, (m, dst));
    assert FullPath(adj, pm, m, dst)[1..] == RawPath(adj, pm, m, dst) + [dst];
  }

  lemma {:induction false} FullPathIsWalk(adj: Adjacency, pm: PathMap, src: Switch, dst: Switch)
    requires WellSplit(adj, pm)
    requires src != dst && (src, dst) in pm
    ensures IsWalk(adj, FullPath(adj, pm, src, dst), src, dst)
    ensures |FullPath(adj, pm, src, dst)| - 1 <= pm[(src, dst)].dist
    decreases pm[(src, dst)].dist
  {
    if pm[(src, dst)].via.Some? {
      var m := FullPathSplits(adj, pm, src, dst);
      FullPathIsWalk(adj, pm, src, m);
      FullPathIsWalk(adj, pm, m, dst);
      JoinWalks(adj, FullPath(adj, pm, src, m), FullPath(adj, pm, m, dst), src, m, dst);
    } else {
      assert EntryOk(adj, pm, (src, dst));
      assert FullPath(adj, pm, src, dst) == [src, dst];
    }
  }

  // Each stored distance is the length of a shortest walk, and the path read back attains it.
  lemma ExactIsShortest(adj: Adjacency, pm: PathMap, src: Switch, dst: Switch)
    requires Exact(adj, pm) && src != dst
    ensures (src, dst) in pm <==> exists p :: IsWalk(adj, p, src, dst)
    ensures (src, dst) in pm ==>
      && IsWalk(adj, FullPath(adj, pm, src, dst), src, dst)
      && |FullPath(adj, pm, src, dst)| - 1 == pm[(src, dst)].dist
      && (forall p :: IsWalk(adj, p, src, dst) ==> pm[(src, dst)].dist <= |p| - 1)
  {
    if (src, dst) in pm {
      FullPathIsWalk(adj, pm, src, dst);
    }
  }

  // A path read back never visits a switch twice.
  lemma FullPathIsSimple(adj: Adjacency, pm: PathMap, src: Switch, dst: Switch)
    requires Exact(adj, pm)
    requires src == dst || (src, dst) in pm
    ensures Simple(FullPath(adj, pm, src, dst))
  {
    if src != dst && !Simple(FullPath(adj, pm, src, dst)) {
      ExactIsShortest(adj, pm, src, dst);
      var q := ShortcutRepeat(adj, FullPath(adj, pm, src, dst), src, dst);
      assert false;
    }
  }
}
