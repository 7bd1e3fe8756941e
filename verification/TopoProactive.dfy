/**
 topo_proactive: each switch gets, for every destination, only the first hop of its own
 computed path.  That packets nevertheless arrive is a property of the whole network.
 */
module TopoProactive {
  import opened Wrappers
  import opened Graphs
  import opened PathTables
  import opened L2Multi

  // Destination switch (its 10.id.0.0/16 network) to output port.
  type FlowTable = map<Switch, Port>

  // The first hop from src towards dst.
  ghost function FirstHop(adj: Adjacency, pm: PathMap, src: Switch, dst: Switch): (h: Switch)
    requires WellSplit(adj, pm) && src != dst && (src, dst) in pm
  {
    FullPath(adj, pm, src, dst)[1]
  }

  // The rules that an exact table yields at src: a rule for every reachable destination.
  ghost predicate TableFrom(adj: Adjacency, pm: PathMap, nodes: set<Switch>, src: Switch, rules: FlowTable) {
    && Exact(adj, pm)
    && (forall d :: d in rules <==> d in nodes && d != src && (src, d) in pm)
    && forall d :: d in rules ==>
         (src, FirstHop(adj, pm, src, d)) in adj && rules[d] == adj[(src, FirstHop(adj, pm, src, d))]
  }

  // _get_path: (node, out_port) for every switch but the last.
  method GetHops(c: Controller, src: Switch, dst: Switch) returns (r: Option<seq<(Switch, Option<Port>)>>)
    requires c.Valid() && src in c.switches
    modifies c`pathMap
    ensures c.Valid()
    ensures old(c.pathMap) != map[] || src == dst ==> c.pathMap == old(c.pathMap)
    ensures src == dst ==> r == Some([])
    ensures src != dst ==> Exact(c.adjacency, c.pathMap) && c.pathMap != map[] && (r.Some? <==> (src, dst) in c.pathMap)
    ensures src != dst && r.Some? ==>
      var path := FullPath(c.adjacency, c.pathMap, src, dst);
      && |r.value| == |path| - 1
      && forall i :: 0 <= i < |r.value| ==> r.value[i] == (path[i], Lookup(c.adjacency, path[i], path[i + 1]))
  {
    if src == dst {
      return Some([]);
    }
    var raw := c.GetRawPath(src, dst);
    if raw.None? {
      return None;
    }
    var path := [src] + raw.value + [dst];
    assert path == FullPath(c.adjacency, c.pathMap, src, dst);
    var hops := [];
    for i := 0 to |path| - 1
      invariant |hops| == i
      invariant forall k :: 0 <= k < i ==> hops[k] == (path[k], Lookup(c.adjacency, path[k], path[k + 1]))
    {
      hops := hops + [(path[i], Lookup(c.adjacency, path[i], path[i + 1]))];
    }
    return Some(hops);
  }

  lemma TableGrows(adj: Adjacency, pm: PathMap, seen: set<Switch>, src: Switch, rules: FlowTable, dst: Switch)
    requires TableFrom(adj, pm, seen, src, rules)
    ensures dst == src || (src, dst) !in pm ==> TableFrom(adj, pm, seen + {dst}, src, rules)
    ensures dst != src && (src, dst) in pm ==>
      && (src, FirstHop(adj, pm, src, dst)) in adj
      && TableFrom(adj, pm, seen + {dst}, src, rules[dst := adj[(src, FirstHop(adj, pm, src, dst))]])
  {
    if dst != src && (src, dst) in pm {
      ExactIsShortest(adj, pm, src, dst);
      var path := FullPath(adj, pm, src, dst);
      assert (path[0], path[0 + 1]) in adj;
    }
  }

  // p[0][1] of a path to another switch, line 212-221.
  method FirstPort(c: Controller, src: Switch, dst: Switch) returns (port: Option<Port>)
    requires c.Valid() && src in c.switches && src != dst && Exact(c.adjacency, c.pathMap) && c.pathMap != map[]
    modifies c`pathMap
    ensures c.pathMap == old(c.pathMap)
    ensures port.Some? <==> (src, dst) in c.pathMap
    ensures port.Some? ==>
      && (src, FirstHop(c.adjacency, c.pathMap, src, dst)) in c.adjacency
      && port.value == c.adjacency[(src, FirstHop(c.adjacency, c.pathMap, src, dst))]
  {
    var p := GetHops(c, src, dst);
    if p.None? {
      return None;
    }
    FirstHopNearer(c.adjacency, c.pathMap, src, dst);
    return p.value[0].1;
  }

  lemma TableEmpty(adj: Adjacency, pm: PathMap, src: Switch)
    requires Exact(adj, pm)
    ensures TableFrom(adj, pm, {}, src, map[])
  {
  }

  // One round of send_table's loop over destinations.
  method AddRule(c: Controller, src: Switch, dst: Switch, rules: FlowTable, ghost seen: set<Switch>)
      returns (rules': FlowTable)
    requires c.Valid() && src in c.switches && c.pathMap != map[]
    requires TableFrom(c.adjacency, c.pathMap, seen, src, rules)
    modifies c`pathMap
    ensures c.pathMap == old(c.pathMap)
    ensures TableFrom(c.adjacency, c.pathMap, seen + {dst}, src, rules')
  {
    TableGrows(c.adjacency, c.pathMap, seen, src, rules, dst);
    rules' := rules;
    if dst != src {
      var port := FirstPort(c, src, dst);
      if port.Some? {
        rules' := rules[dst := port.value];
      }
    }
  }

  ghost predicate IsShortest(adj: Adjacency, p: seq<Switch>, src: Switch, dst: Switch) {
    IsWalk(adj, p, src, dst) && forall q :: IsWalk(adj, q, src, dst) ==> |p| <= |q|
  }

  // A rule for every other switch that can be reached, to the port of a first hop of some
  // shortest path.
  ghost predicate RulesOf(adj: Adjacency, nodes: set<Switch>, src: Switch, rules: FlowTable) {
    && (forall d :: d in rules <==> d in nodes && d != src && exists p :: IsWalk(adj, p, src, d))
    && forall d :: d in rules ==>
         exists p :: IsShortest(adj, p, src, d) && |p| > 1 && (src, p[1]) in adj && rules[d] == adj[(src, p[1])]
  }

  lemma TableIsRules(adj: Adjacency, pm: PathMap, nodes: set<Switch>, src: Switch, rules: FlowTable)
    requires TableFrom(adj, pm, nodes, src, rules)
    ensures RulesOf(adj, nodes, src, rules)
  {
    hide IsWalk, EntryOk;
    forall d | d in nodes && d != src
      ensures (src, d) in pm <==> exists p :: IsWalk(adj, p, src, d)
      ensures (src, d) in pm ==> var p := FullPath(adj, pm, src, d); IsShortest(adj, p, src, d) && |p| > 1
    {
      ExactIsShortest(adj, pm, src, d);
    }
  }

  // The forwarding rules of send_table.
  method SendTable(c: Controller, src: Switch) returns (rules: FlowTable)
    requires c.Valid() && src in c.switches
    modifies c`pathMap
    ensures c.Valid()
    ensures exists pm :: TableFrom(c.adjacency, pm, c.Known(), src, rules)
    ensures RulesOf(c.adjacency, c.Known(), src, rules)
  {
    hide TableFrom, Exact, Over, RulesOf;
    rules := map[];
    if |c.pathMap| == 0 {
      c.CalcPaths();  // the first query would do this
      assert (src, src) in c.pathMap;
    }
    ghost var pm := c.pathMap;
    TableEmpty(c.adjacency, pm, src);
    assert Elements(c.switches[..0]) == {};
    for x := 0 to |c.switches|
      invariant c.Valid() && c.pathMap == pm && pm != map[]
      invariant TableFrom(c.adjacency, pm, Elements(c.switches[..x]), src, rules)
    {
      ElementsAppend(c.switches, x);
      rules := AddRule(c, src, c.switches[x], rules, Elements(c.switches[..x]));
    }
    assert c.switches[..|c.switches|] == c.switches;
    TableIsRules(c.adjacency, pm, c.Known(), src, rules);
  }

  // ---- the network ----

  // Tables may come from different, equally exact path tables of the same adjacency.
  ghost predicate Installed(adj: Adjacency, nodes: set<Switch>, tables: map<Switch, FlowTable>) {
    forall s :: s in nodes ==> s in tables && exists pm :: TableFrom(adj, pm, nodes, s, tables[s])
  }

  // peer(s, p) is the switch at the other end of port p of s.
  ghost predicate Wired(adj: Adjacency, peer: (Switch, Port) -> Switch) {
    forall e :: e in adj ==> peer(e.0, adj[e]) == e.1
  }

  // Where a packet for dst is after at most n hops; it stops at dst, or where no rule matches.
  function Carry(tables: map<Switch, FlowTable>, peer: (Switch, Port) -> Switch,
                 at: Switch, dst: Switch, n: nat): Switch
    decreases n
  {
    if n == 0 || at == dst || at !in tables || dst !in tables[at] then at
    else Carry(tables, peer, peer(at, tables[at][dst]), dst, n - 1)
  }

  // The first hop of a path lies exactly one hop nearer the destination.
  lemma FirstHopNearer(adj: Adjacency, pm: PathMap, src: Switch, dst: Switch)
    requires Exact(adj, pm) && src != dst && (src, dst) in pm
    ensures var h := FirstHop(adj, pm, src, dst);
      && (src, h) in adj
      && (if h == dst then pm[(src, dst)].dist == 1
          else (h, dst) in pm && pm[(h, dst)].dist == pm[(src, dst)].dist - 1)
  {
    ExactIsShortest(adj, pm, src, dst);
    var path, h := FullPath(adj, pm, src, dst), FirstHop(adj, pm, src, dst);
    assert (path[0], path[0 + 1]) in adj;
    forall i | 0 <= i < |path[1..]| - 1
      ensures (path[1..][i], path[1..][i + 1]) in adj
    {
      assert (path[i + 1], path[i + 1 + 1]) in adj;
    }
    assert IsWalk(adj, path[1..], h, dst);
    if h == dst {
      assert IsWalk(adj, [src, dst], src, dst);
    } else {
      ExactIsShortest(adj, pm, h, dst);
      var rest := FullPath(adj, pm, h, dst);
      JoinWalks(adj, [src, h], rest, src, h, dst);
      assert |[src, h] + rest[1..]| == |rest| + 1;
    }
  }

  lemma SameDistance(adj: Adjacency, pm: PathMap, pm': PathMap, a: Switch, b: Switch)
    requires Exact(adj, pm) && Exact(adj, pm') && a != b
    ensures (a, b) in pm <==> (a, b) in pm'
    ensures (a, b) in pm ==> pm[(a, b)].dist == pm'[(a, b)].dist
  {
    ExactIsShortest(adj, pm, a, b);
    ExactIsShortest(adj, pm', a, b);
  }

  // One forwarding step moves a packet to a known switch one hop nearer.
  lemma OneHop(adj: Adjacency, pm: PathMap, nodes: set<Switch>, tables: map<Switch, FlowTable>,
               peer: (Switch, Port) -> Switch, at: Switch, dst: Switch)
    requires Exact(adj, pm) && Over(adj, nodes) && Installed(adj, nodes, tables) && Wired(adj, peer)
    requires at != dst && at in nodes && dst in nodes
    ensures at in tables && (dst in tables[at] <==> (at, dst) in pm)
    ensures (at, dst) in pm ==>
      var h := peer(at, tables[at][dst]);
      && h in nodes
      && (if h == dst then pm[(at, dst)].dist == 1
          else (h, dst) in pm && pm[(h, dst)].dist == pm[(at, dst)].dist - 1)
  {
    var own :| TableFrom(adj, own, nodes, at, tables[at]);
    SameDistance(adj, pm, own, at, dst);
    if (at, dst) in pm {
      FirstHopNearer(adj, own, at, dst);
      var h := FirstHop(adj, own, at, dst);
      assert peer((at, h).0, adj[(at, h)]) == h;
      if h != dst {
        SameDistance(adj, pm, own, h, dst);
      }
    }
  }

  // Network-wide: a packet is delivered in exactly the shortest distance, and after n < dist
  // hops it is still dist - n hops away, so it never comes back to a switch it has left.
  lemma {:induction false} Delivers(adj: Adjacency, pm: PathMap, nodes: set<Switch>, tables: map<Switch, FlowTable>,
                                    peer: (Switch, Port) -> Switch, src: Switch, dst: Switch, n: nat)
    requires Exact(adj, pm) && Over(adj, nodes) && Installed(adj, nodes, tables) && Wired(adj, peer)
    requires src != dst && src in nodes && dst in nodes && (src, dst) in pm
    ensures n < pm[(src, dst)].dist ==>
      var at := Carry(tables, peer, src, dst, n);
      at != dst && at in nodes && (at, dst) in pm && pm[(at, dst)].dist == pm[(src, dst)].dist - n
    ensures n >= pm[(src, dst)].dist ==> Carry(tables, peer, src, dst, n) == dst
    decreases n
  {
    assert EntryOk(adj, pm, (src, dst));
    if n > 0 {
      OneHop(adj, pm, nodes, tables, peer, src, dst);
      var h := peer(src, tables[src][dst]);
      if h != dst {
        Delivers(adj, pm, nodes, tables, peer, h, dst, n - 1);
      }
    }
  }

  // A packet for an unreachable switch is not forwarded at all.
  lemma Undeliverable(adj: Adjacency, pm: PathMap, nodes: set<Switch>, tables: map<Switch, FlowTable>,
                      peer: (Switch, Port) -> Switch, src: Switch, dst: Switch, n: nat)
    requires Exact(adj, pm) && Over(adj, nodes) && Installed(adj, nodes, tables) && Wired(adj, peer)
    requires src != dst && src in nodes && dst in nodes && (src, dst) !in pm
    ensures Carry(tables, peer, src, dst, n) == src
  {
    OneHop(adj, pm, nodes, tables, peer, src, dst);
  }
}
