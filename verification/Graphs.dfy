/** Switch graphs: adjacency, walks, and the walk surgery that shortest-path proofs need. */
module Graphs {
  type Switch = int
  type Port = int

  // adjacency[a][b] is the port of a that leads to b.  A missing key stands for
  // the None that the source's defaultdict yields.
  type Adjacency = map<(Switch, Switch), Port>

  // p is a non-empty string of adjacent switches from a to b; its length in hops is |p| - 1.
  ghost predicate IsWalk(adj: Adjacency, p: seq<Switch>, a: Switch, b: Switch) {
    && |p| > 0
    && p[0] == a
    && p[|p| - 1] == b
    && forall i :: 0 <= i < |p| - 1 ==> (p[i], p[i + 1]) in adj
  }

  // Every interior switch of p lies in s.
  ghost predicate Through(p: seq<Switch>, s: set<Switch>) {
    forall i :: 0 < i < |p| - 1 ==> p[i] in s
  }

  ghost predicate Simple(p: seq<Switch>) {
    forall i, j :: 0 <= i < j < |p| ==> p[i] != p[j]
  }

  // All endpoints are known switches.
  ghost predicate Over(adj: Adjacency, nodes: set<Switch>) {
    forall e :: e in adj ==> e.0 in nodes && e.1 in nodes
  }

  ghost function Elements(s: seq<Switch>): set<Switch> {
    set x | x in s
  }

  lemma ElementsAppend(s: seq<Switch>, i: nat)
    requires i < |s|
    ensures Elements(s[..i + 1]) == Elements(s[..i]) + {s[i]}
  {
    assert s[..i + 1] == s[..i] + [s[i]];
  }

  lemma WalkInteriorKnown(adj: Adjacency, nodes: set<Switch>, p: seq<Switch>, a: Switch, b: Switch)
    requires Over(adj, nodes) && IsWalk(adj, p, a, b)
    ensures Through(p, nodes)
    ensures a != b ==> a in nodes && b in nodes
  {
    forall i | 0 < i < |p| - 1
      ensures p[i] in nodes
    {
      assert (p[i], p[i + 1]) in adj;
    }
    if a != b {
      assert (p[0], p[1]) in adj;
      assert (p[|p| - 2], p[|p| - 2 + 1]) in adj;
    }
  }

  lemma JoinWalks(adj: Adjacency, p: seq<Switch>, q: seq<Switch>, a: Switch, m: Switch, b: Switch)
    requires IsWalk(adj, p, a, m) && IsWalk(adj, q, m, b)
    ensures IsWalk(adj, p + q[1..], a, b)
  {
    var r := p + q[1..];
    forall i | 0 <= i < |r| - 1
      ensures (r[i], r[i + 1]) in adj
    {
      if i < |p| - 1 {
        assert r[i] == p[i] && r[i + 1] == p[i + 1];
      } else {
        assert r[i] == q[i - (|p| - 1)] && r[i + 1] == q[i - (|p| - 1) + 1];
      }
    }
  }

  // A walk that may use k but is not confined to s visits k; cutting out what lies
  // between its first and last visit leaves two walks confined to s.
  lemma CutAt(adj: Adjacency, p: seq<Switch>, a: Switch, b: Switch, k: Switch, s: set<Switch>)
      returns (f: nat, g: nat)
    requires IsWalk(adj, p, a, b) && Through(p, s + {k}) && !Through(p, s)
    ensures 0 < f <= g < |p| - 1
    ensures IsWalk(adj, p[..f + 1], a, k) && Through(p[..f + 1], s)
    ensures IsWalk(adj, p[g..], k, b) && Through(p[g..], s)
  {
    var x :| 0 < x < |p| - 1 && p[x] !in s;
    f := 1;
    while p[f] != k
      invariant 1 <= f <= x
      invariant forall y :: 1 <= y < f ==> p[y] != k
      decreases x - f
    {
      f := f + 1;
    }
    g := |p| - 2;
    while p[g] != k
      invariant x <= g <= |p| - 2
      invariant forall y :: g < y < |p| - 1 ==> p[y] != k
      decreases g
    {
      g := g - 1;
    }
  }

  // A walk that visits some switch twice can be shortened.
  lemma ShortcutRepeat(adj: Adjacency, p: seq<Switch>, a: Switch, b: Switch) returns (q: seq<Switch>)
    requires IsWalk(adj, p, a, b) && !Simple(p)
    ensures IsWalk(adj, q, a, b) && |q| < |p|
  {
    var i, j :| 0 <= i < j < |p| && p[i] == p[j];
    assert IsWalk(adj, p[..i + 1], a, p[i]);
    assert IsWalk(adj, p[j..], p[i], b);
    JoinWalks(adj, p[..i + 1], p[j..], a, p[i], b);
    q := p[..i + 1] + p[j..][1..];
  }

  lemma {:induction false} SimpleWalk(adj: Adjacency, p: seq<Switch>, a: Switch, b: Switch) returns (q: seq<Switch>)
    requires IsWalk(adj, p, a, b)
    ensures IsWalk(adj, q, a, b) && Simple(q) && |q| <= |p|
    decreases |p|
  {
    q := p;
    if !Simple(p) {
      q := ShortcutRepeat(adj, p, a, b);
      q := SimpleWalk(adj, q, a, b);
    }
  }
}
