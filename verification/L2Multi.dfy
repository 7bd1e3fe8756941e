/**
 l2_multi: the controller state, path queries over the cached table, and the discovery link
 handler.  Discovery itself is not part of this model; its link set is an argument.
 */
module L2Multi {
  import opened Wrappers
  import opened Graphs
  import opened PathTables

  type Mac = int

  datatype Link = Link(dpid1: Switch, port1: Port, dpid2: Switch, port2: Port)

  function Flip(l: Link): Link {
    Link(l.dpid2, l.port2, l.dpid1, l.port1)
  }

  // One element of a cooked path: (node, in_port, out_port).
  datatype Leg = Leg(node: Switch, inPort: Option<Port>, outPort: Option<Port>)

  function Lookup(adj: Adjacency, a: Switch, b: Switch): Option<Port> {
    if (a, b) in adj then Some(adj[(a, b)]) else None
  }

  // Consecutive legs leave and enter through the ports that adjacency names.
  predicate PortsMatch(adj: Adjacency, p: seq<Leg>) {
    forall i :: 0 < i < |p| ==>
      && Lookup(adj, p[i - 1].node, p[i].node) == p[i - 1].outPort
      && Lookup(adj, p[i].node, p[i - 1].node) == p[i].inPort
  }

  function Nodes(p: seq<Leg>): (ns: seq<Switch>)
    ensures |ns| == |p| && forall i :: 0 <= i < |p| ==> ns[i] == p[i].node
  {
    seq(|p|, i requires 0 <= i < |p| => p[i].node)
  }

  // ---- adjacency after a link event ----

  // ll is another bidirectional link between the ends of l, line 453-455.
  predicate Replaces(links: set<Link>, l: Link, ll: Link) {
    && ll in links && ll != l
    && ll.dpid1 == l.dpid1 && ll.dpid2 == l.dpid2
    && Flip(ll) in links
  }

  function Connected(adj: Adjacency, l: Link): Adjacency {
    adj[(l.dpid1, l.dpid2) := l.port1][(l.dpid2, l.dpid1) := l.port2]
  }

  function Disconnected(adj: Adjacency, l: Link): Adjacency {
    adj - {(l.dpid1, l.dpid2), (l.dpid2, l.dpid1)}
  }

  // Some replacement connects the ends of l, if there is one.
  ghost predicate Repaired(adj: Adjacency, links: set<Link>, l: Link, adj': Adjacency) {
    if exists ll :: Replaces(links, l, ll)
    then exists ll :: Replaces(links, l, ll) && adj' == Connected(adj, ll)
    else adj' == adj
  }

  // What the handler may leave in adjacency.  Which replacement a removal picks depends on
  // the iteration order of discovery's dictionary.
  ghost predicate AfterLinkEvent(adj: Adjacency, links: set<Link>, l: Link, removed: bool, adj': Adjacency) {
    if removed then
      Repaired(Disconnected(adj, l), links, l, adj')
    else
      adj' == if (l.dpid1, l.dpid2) !in adj && Flip(l) in links then Connected(adj, l) else adj
  }

  // ---- the run: switches connect, links come and go, paths are queried ----

  datatype State = State(switches: set<Switch>, adjacency: Adjacency, pathMap: PathMap, links: set<Link>)

  datatype Event = Connect(s: Switch) | LinkUp(l: Link) | LinksDown(batch: seq<Link>) | Query

  // The down events of links that discovery deletes together: all are raised before any of
  // the links leaves its dictionary.
  ghost predicate AfterBatch(adj: Adjacency, links: set<Link>, batch: seq<Link>, adj': Adjacency) {
    if batch == [] then adj' == adj
    else
      var n := |batch| - 1;
      exists mid :: AfterBatch(adj, links, batch[..n], mid) && AfterLinkEvent(mid, links, batch[n], true, adj')
  }

  function Members(batch: seq<Link>): set<Link> {
    set l | l in batch
  }

  // Discovery adds a link before its up event.
  ghost predicate Step(s: State, e: Event, s': State) {
    match e
    case Connect(n) => s' == s.(switches := s.switches + {n})
    case LinkUp(l) =>
      && l.dpid1 in s.switches && l.dpid2 in s.switches
      && AfterLinkEvent(s.adjacency, s.links + {l}, l, false, s'.adjacency)
      && s' == State(s.switches, s'.adjacency, map[], s.links + {l})
    case LinksDown(batch) =>
      && (forall l :: l in batch ==> l.dpid1 in s.switches && l.dpid2 in s.switches)
      && AfterBatch(s.adjacency, s.links, batch, s'.adjacency)
      && s' == State(s.switches, s'.adjacency, if batch == [] then s.pathMap else map[], s.links - Members(batch))
    case Query =>
      && (if s.pathMap == map[] then s'.pathMap == map[] || Exact(s.adjacency, s'.pathMap) else s'.pathMap == s.pathMap)
      && s' == s.(pathMap := s'.pathMap)
  }

  ghost predicate IsRun(run: seq<State>, events: seq<Event>) {
    && |run| == |events| + 1
    && run[0] == State({}, map[], map[], {})
    && forall i :: 0 <= i < |events| ==> Step(run[i], events[i], run[i + 1])
  }

  // l and its reverse have both been discovered.
  predicate BothWays(links: set<Link>, l: Link) {
    l in links && Link(l.dpid2, l.port2, l.dpid1, l.port1) in links
  }

  ghost predicate Joined(links: set<Link>, a: Switch, b: Switch) {
    exists l :: BothWays(links, l) && l.dpid1 == a && l.dpid2 == b
  }

  // Between distinct switches adjacency is exactly the links known both ways, and the two
  // ports recorded for a pair belong to one such link.
  ghost predicate Tracks(adj: Adjacency, links: set<Link>) {
    && (forall a, b :: a != b ==> ((a, b) in adj <==> Joined(links, a, b)))
    && forall a, b :: a != b && (a, b) in adj ==>
         (b, a) in adj && BothWays(links, Link(a, adj[(a, b)], b, adj[(b, a)]))
  }

  ghost predicate Inv(s: State) {
    && Over(s.adjacency, s.switches)
    && (s.pathMap == map[] || Exact(s.adjacency, s.pathMap))
    && Tracks(s.adjacency, s.links)
  }

  lemma JoinedBack(links: set<Link>, l: Link)
    requires BothWays(links, l)
    ensures Joined(links, l.dpid1, l.dpid2) && Joined(links, l.dpid2, l.dpid1)
  {
    assert Flip(Flip(l)) == l;
    assert BothWays(links, Flip(l));
  }

  lemma UpTracks(adj: Adjacency, links: set<Link>, l: Link, adj': Adjacency)
    requires Tracks(adj, links)
    requires AfterLinkEvent(adj, links + {l}, l, false, adj')
    ensures Tracks(adj', links + {l})
  {
    var links' := links + {l};
    assert Flip(Flip(l)) == l;
    forall a, b | a != b
      ensures (a, b) in adj' <==> Joined(links', a, b)
    {
      if Joined(links', a, b) {
        var x :| BothWays(links', x) && x.dpid1 == a && x.dpid2 == b;
        assert Flip(Flip(x)) == x;
        if x == l || Flip(x) == l {
          JoinedBack(links', l);
        } else {
          assert BothWays(links, x);
        }
      }
      if (a, b) in adj' {
        if (a, b) in adj {
          var x :| BothWays(links, x) && x.dpid1 == a && x.dpid2 == b;
          assert BothWays(links', x);
        } else {
          JoinedBack(links', l);
        }
      }
    }
  }

  // ---- links that go down together ----

  function Ends(l: Link): set<Switch> {
    {l.dpid1, l.dpid2}
  }

  // No later link of the batch joins the same two switches.
  predicate LastOfPair(batch: seq<Link>, i: int) {
    0 <= i < |batch| && forall j :: i < j < |batch| ==> Ends(batch[j]) != Ends(batch[i])
  }

  // Nothing that could replace the last link of a pair goes down with it.
  ghost predicate SafeBatch(links: set<Link>, batch: seq<Link>) {
    forall i, ll :: LastOfPair(batch, i) && batch[i].dpid1 != batch[i].dpid2 && Replaces(links, batch[i], ll) ==>
      ll !in batch && Flip(ll) !in batch
  }

  predicate SamePair(adj: Adjacency, adj': Adjacency, a: Switch, b: Switch) {
    Lookup(adj', a, b) == Lookup(adj, a, b) && Lookup(adj', b, a) == Lookup(adj, b, a)
  }

  predicate JoinedBy(adj: Adjacency, l: Link) {
    Lookup(adj, l.dpid1, l.dpid2) == Some(l.port1) && Lookup(adj, l.dpid2, l.dpid1) == Some(l.port2)
  }

  // What the down event of l leaves of its pair.
  ghost predicate Reconnected(adj: Adjacency, links: set<Link>, l: Link) {
    if exists ll :: Replaces(links, l, ll)
    then exists ll :: Replaces(links, l, ll) && JoinedBy(adj, ll)
    else Lookup(adj, l.dpid1, l.dpid2) == None && Lookup(adj, l.dpid2, l.dpid1) == None
  }

  lemma DownReconnects(adj: Adjacency, links: set<Link>, l: Link, adj': Adjacency)
    requires AfterLinkEvent(adj, links, l, true, adj') && l.dpid1 != l.dpid2
    ensures Reconnected(adj', links, l)
  {
    if exists ll :: Replaces(links, l, ll) {
      var ll :| Replaces(links, l, ll) && adj' == Connected(Disconnected(adj, l), ll);
      assert JoinedBy(adj', ll);
    }
  }

  lemma DownElsewhere(adj: Adjacency, links: set<Link>, l: Link, adj': Adjacency, a: Switch, b: Switch)
    requires AfterLinkEvent(adj, links, l, true, adj') && Ends(l) != {a, b}
    ensures SamePair(adj, adj', a, b)
  {
    assert !(l.dpid1 == a && l.dpid2 == b) && !(l.dpid1 == b && l.dpid2 == a);
  }

  // An event leaves all pairs alone but that of its link.
  lemma OthersStay(adj: Adjacency, links: set<Link>, l: Link, removed: bool, adj': Adjacency)
    requires AfterLinkEvent(adj, links, l, removed, adj')
    ensures forall a, b :: {a, b} != Ends(l) ==> Lookup(adj', a, b) == Lookup(adj, a, b)
  {
    forall a, b | {a, b} != Ends(l)
      ensures Lookup(adj', a, b) == Lookup(adj, a, b)
    {
      if removed {
        DownElsewhere(adj, links, l, adj', a, b);
      } else {
        assert !(l.dpid1 == a && l.dpid2 == b) && !(l.dpid1 == b && l.dpid2 == a);
      }
    }
  }

  lemma {:induction false} PairUntouched(adj: Adjacency, links: set<Link>, batch: seq<Link>, adj': Adjacency,
                                         a: Switch, b: Switch)
    requires AfterBatch(adj, links, batch, adj')
    requires forall j :: 0 <= j < |batch| ==> Ends(batch[j]) != {a, b}
    ensures SamePair(adj, adj', a, b)
  {
    if batch != [] {
      hide AfterLinkEvent;
      var n := |batch| - 1;
      var mid :| AfterBatch(adj, links, batch[..n], mid) && AfterLinkEvent(mid, links, batch[n], true, adj');
      PairUntouched(adj, links, batch[..n], mid, a, b);
      DownElsewhere(mid, links, batch[n], adj', a, b);
    }
  }

  // The last down event of a pair decides about it.
  lemma {:induction false} PairAfterBatch(adj: Adjacency, links: set<Link>, batch: seq<Link>, adj': Adjacency, i: int)
    requires AfterBatch(adj, links, batch, adj')
    requires LastOfPair(batch, i) && batch[i].dpid1 != batch[i].dpid2
    ensures Reconnected(adj', links, batch[i])
  {
    hide AfterLinkEvent, Replaces;
    var n := |batch| - 1;
    var mid :| AfterBatch(adj, links, batch[..n], mid) && AfterLinkEvent(mid, links, batch[n], true, adj');
    if i == n {
      DownReconnects(mid, links, batch[n], adj');
    } else {
      PairAfterBatch(adj, links, batch[..n], mid, i);
      DownElsewhere(mid, links, batch[n], adj', batch[i].dpid1, batch[i].dpid2);
      StillReconnected(mid, adj', links, batch[i]);
    }
  }

  lemma StillReconnected(adj: Adjacency, adj': Adjacency, links: set<Link>, l: Link)
    requires Reconnected(adj, links, l) && SamePair(adj, adj', l.dpid1, l.dpid2)
    ensures Reconnected(adj', links, l)
  {
    if exists ll :: Replaces(links, l, ll) {
      var ll :| Replaces(links, l, ll) && JoinedBy(adj, ll);
      assert JoinedBy(adj', ll);
    }
  }

  // One of any two ends of the batch comes last.
  lemma {:induction false} LastToTouch(batch: seq<Link>, a: Switch, b: Switch) returns (i: int)
    requires exists j :: 0 <= j < |batch| && Ends(batch[j]) == {a, b}
    ensures LastOfPair(batch, i) && Ends(batch[i]) == {a, b}
  {
    var n := |batch| - 1;
    if Ends(batch[n]) == {a, b} {
      i := n;
    } else {
      i := LastToTouch(batch[..n], a, b);
    }
  }

  // Tracks, for one pair.
  ghost predicate TracksPair(adj: Adjacency, links: set<Link>, a: Switch, b: Switch) {
    && ((a, b) in adj <==> Joined(links, a, b))
    && ((a, b) in adj ==> (b, a) in adj && BothWays(links, Link(a, adj[(a, b)], b, adj[(b, a)])))
  }

  lemma UntouchedTracks(adj: Adjacency, links: set<Link>, gone: set<Link>, adj': Adjacency, a: Switch, b: Switch)
    requires TracksPair(adj, links, a, b) && SamePair(adj, adj', a, b)
    requires forall l :: l in gone ==> Ends(l) != {a, b}
    ensures TracksPair(adj', links - gone, a, b)
  {
    assert (a, b) in adj <==> Lookup(adj, a, b).Some?;
    forall l | Ends(l) == {a, b}
      ensures BothWays(links - gone, l) <==> BothWays(links, l)
    {
      assert Ends(Flip(l)) == Ends(l);
    }
    if Joined(links, a, b) {
      var l :| BothWays(links, l) && l.dpid1 == a && l.dpid2 == b;
      assert Ends(l) == {a, b};
      assert BothWays(links - gone, l);
    }
  }

  lemma ReconnectedTracks(adj': Adjacency, links: set<Link>, gone: set<Link>, l: Link, a: Switch, b: Switch)
    requires a != b && Ends(l) == {a, b} && l in gone && Reconnected(adj', links, l)
    requires forall ll :: Replaces(links, l, ll) ==> ll !in gone && Flip(ll) !in gone
    ensures TracksPair(adj', links - gone, a, b)
  {
    var left := links - gone;
    assert l in gone ==> l !in left;
    if Joined(left, a, b) {
      var x :| BothWays(left, x) && x.dpid1 == a && x.dpid2 == b;
      assert Flip(Flip(x)) == x;
      var same := if l.dpid1 == a then x else Flip(x);
      assert Replaces(links, l, same);
    }
    if exists ll :: Replaces(links, l, ll) {
      var ll :| Replaces(links, l, ll) && JoinedBy(adj', ll);
      assert Flip(Flip(ll)) == ll;
      assert BothWays(left, ll);
      JoinedBack(left, ll);
    }
  }

  // A safe batch leaves exactly the links that are still known both ways.
  lemma SafeBatchTracks(adj: Adjacency, links: set<Link>, batch: seq<Link>, adj': Adjacency)
    requires Tracks(adj, links) && AfterBatch(adj, links, batch, adj') && SafeBatch(links, batch)
    ensures Tracks(adj', links - Members(batch))
  {
    hide AfterBatch, Joined, Reconnected, Replaces, LastOfPair, BothWays;
    forall a, b | a != b
      ensures TracksPair(adj', links - Members(batch), a, b)
    {
      assert TracksPair(adj, links, a, b);
      if exists j :: 0 <= j < |batch| && Ends(batch[j]) == {a, b} {
        var i := LastToTouch(batch, a, b);
        LastIsIn(batch, i);
        PairAfterBatch(adj, links, batch, adj', i);
        ReconnectedTracks(adj', links, Members(batch), batch[i], a, b);
      } else {
        PairUntouched(adj, links, batch, adj', a, b);
        UntouchedTracks(adj, links, Members(batch), adj', a, b);
      }
    }
    TracksAll(adj', links - Members(batch));
  }

  lemma TracksAll(adj: Adjacency, links: set<Link>)
    requires forall a, b :: a != b ==> TracksPair(adj, links, a, b)
    ensures Tracks(adj, links)
  {
    hide Joined, BothWays;
    forall a, b | a != b
      ensures (a, b) in adj <==> Joined(links, a, b)
      ensures (a, b) in adj ==> (b, a) in adj && BothWays(links, Link(a, adj[(a, b)], b, adj[(b, a)]))
    {
      assert TracksPair(adj, links, a, b);
    }
  }

  lemma LastIsIn(batch: seq<Link>, i: int)
    requires LastOfPair(batch, i)
    ensures 0 <= i < |batch| && batch[i] in Members(batch)
  {
  }

  lemma SomeDownOutcome(adj: Adjacency, links: set<Link>, l: Link) returns (adj': Adjacency)
    ensures AfterLinkEvent(adj, links, l, true, adj')
  {
    adj' := Disconnected(adj, l);
    if ll :| Replaces(links, l, ll) {
      adj' := Connected(Disconnected(adj, l), ll);
    }
  }

  lemma {:induction false} SomeBatchOutcome(adj: Adjacency, links: set<Link>, batch: seq<Link>)
      returns (adj': Adjacency)
    ensures AfterBatch(adj, links, batch, adj')
  {
    if batch == [] {
      adj' := adj;
    } else {
      var n := |batch| - 1;
      var mid := SomeBatchOutcome(adj, links, batch[..n]);
      adj' := SomeDownOutcome(mid, links, batch[n]);
    }
  }

  lemma EndsOfReplacement(links: set<Link>, l: Link, ll: Link)
    requires Replaces(links, l, ll)
    ensures Ends(l) == {ll.dpid1, ll.dpid2}
  {
  }

  // Any replacement may be the one that is picked last.
  lemma {:induction false} BatchMayPick(adj: Adjacency, links: set<Link>, batch: seq<Link>, i: int, ll: Link)
      returns (adj': Adjacency)
    requires LastOfPair(batch, i) && batch[i].dpid1 != batch[i].dpid2 && Replaces(links, batch[i], ll)
    ensures AfterBatch(adj, links, batch, adj') && JoinedBy(adj', ll)
  {
    var n := |batch| - 1;
    if i == n {
      var mid := SomeBatchOutcome(adj, links, batch[..n]);
      adj' := Connected(Disconnected(mid, batch[n]), ll);
      assert AfterLinkEvent(mid, links, batch[n], true, adj');
    } else {
      hide AfterLinkEvent, Replaces;
      assert LastOfPair(batch[..n], i);
      var mid := BatchMayPick(adj, links, batch[..n], i, ll);
      adj' := SomeDownOutcome(mid, links, batch[n]);
      assert Ends(batch[n]) != Ends(batch[i]) && Ends(batch[i]) == {ll.dpid1, ll.dpid2} by {
        EndsOfReplacement(links, batch[i], ll);
      }
      DownElsewhere(mid, links, batch[n], adj', ll.dpid1, ll.dpid2);
    }
  }

  // The links known both ways are tracked through a batch, whatever replacements are picked,
  // exactly if the batch is safe.
  lemma TracksIffSafe(adj: Adjacency, links: set<Link>, batch: seq<Link>)
    requires Tracks(adj, links)
    ensures (forall adj' :: AfterBatch(adj, links, batch, adj') ==> Tracks(adj', links - Members(batch)))
       <==> SafeBatch(links, batch)
  {
    if SafeBatch(links, batch) {
      forall adj' | AfterBatch(adj, links, batch, adj')
        ensures Tracks(adj', links - Members(batch))
      {
        SafeBatchTracks(adj, links, batch, adj');
      }
    } else {
      var i, ll :| LastOfPair(batch, i) && batch[i].dpid1 != batch[i].dpid2 && Replaces(links, batch[i], ll)
                   && !(ll !in batch && Flip(ll) !in batch);
      var adj' := BatchMayPick(adj, links, batch, i, ll);
      assert !BothWays(links - Members(batch), ll);
      NotTracked(adj', links - Members(batch), ll);
    }
  }

  lemma NotTracked(adj: Adjacency, links: set<Link>, ll: Link)
    requires JoinedBy(adj, ll) && ll.dpid1 != ll.dpid2 && !BothWays(links, ll)
    ensures !Tracks(adj, links)
  {
    var a, b := ll.dpid1, ll.dpid2;
    assert (a, b) in adj && (b, a) in adj && Link(a, adj[(a, b)], b, adj[(b, a)]) == ll;
  }

  // Safe are all batches without parallel links, so any single link and its reverse.
  lemma NoParallelsIsSafe(links: set<Link>, batch: seq<Link>)
    requires forall l, k :: l in batch && k in batch && Ends(l) == Ends(k) ==> k == l || k == Flip(l)
    ensures SafeBatch(links, batch)
  {
    forall i, ll | LastOfPair(batch, i) && batch[i].dpid1 != batch[i].dpid2 && Replaces(links, batch[i], ll)
      ensures ll !in batch && Flip(ll) !in batch
    {
      var l := batch[i];
      assert Ends(ll) == Ends(l) && Ends(Flip(ll)) == Ends(l) && Flip(Flip(ll)) == ll;
    }
  }

  // A switch that disconnects takes all its links down at once.  If two links known both ways
  // led to one neighbour, the two stay adjacent although no link is left between them.
  lemma StaleAfterDisconnect(adj: Adjacency, links: set<Link>, batch: seq<Link>, adj': Adjacency, k: Link, l: Link)
    requires AfterBatch(adj, links, batch, adj')
    requires BothWays(links, k) && BothWays(links, l) && k != l
    requires k.dpid1 == l.dpid1 != k.dpid2 == l.dpid2
    requires Members(batch) == (set x | x in links && (x.dpid1 == k.dpid1 || x.dpid2 == k.dpid1))
    ensures (k.dpid1, k.dpid2) in adj' && !Joined(links - Members(batch), k.dpid1, k.dpid2)
  {
    var a, b := k.dpid1, k.dpid2;
    assert k in Members(batch);
    var at :| 0 <= at < |batch| && batch[at] == k;
    assert Ends(batch[at]) == {a, b};
    var i := LastToTouch(batch, a, b);
    PairAfterBatch(adj, links, batch, adj', i);
    var last := batch[i];
    assert Flip(Flip(k)) == k && Flip(Flip(l)) == l;
    var x, y := if last.dpid1 == a then k else Flip(k), if last.dpid1 == a then l else Flip(l);
    assert Replaces(links, last, x) || Replaces(links, last, y);
    var ll :| Replaces(links, last, ll) && JoinedBy(adj', ll);
    assert Lookup(adj', a, b).Some?;
  }

  // ---- runs ----

  lemma {:induction false} BatchStaysOver(adj: Adjacency, links: set<Link>, batch: seq<Link>, adj': Adjacency,
          nodes: set<Switch>)
    requires Over(adj, nodes) && AfterBatch(adj, links, batch, adj')
    requires forall l :: l in batch ==> l.dpid1 in nodes && l.dpid2 in nodes
    ensures Over(adj', nodes)
  {
    if batch != [] {
      var n := |batch| - 1;
      var mid :| AfterBatch(adj, links, batch[..n], mid) && AfterLinkEvent(mid, links, batch[n], true, adj');
      BatchStaysOver(adj, links, batch[..n], mid, nodes);
      assert batch[n] in batch;
    }
  }

  ghost predicate SafeEvent(s: State, e: Event) {
    e.LinksDown? ==> SafeBatch(s.links, e.batch)
  }

  lemma StepKeepsInv(s: State, e: Event, s': State)
    requires Inv(s) && Step(s, e, s') && SafeEvent(s, e)
    ensures Inv(s')
  {
    hide Tracks, AfterBatch, SafeBatch, Exact;
    match e
    case LinkUp(l) => UpTracks(s.adjacency, s.links, l, s'.adjacency);
    case LinksDown(batch) =>
      SafeBatchTracks(s.adjacency, s.links, batch, s'.adjacency);
      BatchStaysOver(s.adjacency, s.links, batch, s'.adjacency, s.switches);
      if batch == [] {
        EmptyBatch(s.adjacency, s.links, s'.adjacency);
      }
    case _ =>
  }

  lemma EmptyBatch(adj: Adjacency, links: set<Link>, adj': Adjacency)
    requires AfterBatch(adj, links, [], adj')
    ensures adj' == adj
  {
  }

  // Every reachable state: adjacency tracks the bidirectional links, and a cached table is
  // exact for it even though switches may have connected since it was computed.
  lemma {:induction false} RunKeepsInv(run: seq<State>, events: seq<Event>, n: nat)
    requires IsRun(run, events) && n < |run|
    requires forall i :: 0 <= i < n ==> SafeEvent(run[i], events[i])
    ensures Inv(run[n])
  {
    if n > 0 {
      hide Step, Inv, SafeEvent;
      RunKeepsInv(run, events, n - 1);
      assert Step(run[n - 1], events[n - 1], run[n - 1 + 1]);
      StepKeepsInv(run[n - 1], events[n - 1], run[n]);
    } else {
      StartsTracking();
    }
  }

  lemma StartsTracking()
    ensures Inv(State({}, map[], map[], {}))
  {
  }

  // The event takes a link between the two switches down.
  predicate Parts(e: Event, a: Switch, b: Switch) {
    e.LinksDown? && exists i :: 0 <= i < |e.batch| && Ends(e.batch[i]) == {a, b}
  }

  // The ports of two adjacent switches stay what they are until a link between them goes down.
  lemma StepKeepsPorts(s: State, e: Event, s': State, a: Switch, b: Switch)
    requires Inv(s) && Step(s, e, s') && (a, b) in s.adjacency && !Parts(e, a, b)
    ensures Lookup(s'.adjacency, a, b) == Lookup(s.adjacency, a, b)
  {
    if e.LinksDown? {
      PairUntouched(s.adjacency, s.links, e.batch, s'.adjacency, a, b);
    } else if e.LinkUp? && e.l.dpid1 == b && e.l.dpid2 == a {
      assert (b, a) in s.adjacency;
    }
  }

  lemma {:induction false} RunKeepsPorts(run: seq<State>, events: seq<Event>, m: nat, n: nat, a: Switch, b: Switch)
    requires IsRun(run, events) && m <= n < |run| && (a, b) in run[m].adjacency
    requires forall i :: 0 <= i < n ==> SafeEvent(run[i], events[i])
    requires forall i :: m <= i < n ==> !Parts(events[i], a, b)
    ensures Lookup(run[n].adjacency, a, b) == Lookup(run[m].adjacency, a, b)
  {
    if m < n {
      hide Step, Inv, SafeEvent, Parts;
      RunKeepsPorts(run, events, m, n - 1, a, b);
      RunKeepsInv(run, events, n - 1);
      assert Step(run[n - 1], events[n - 1], run[n - 1 + 1]);
      StepKeepsPorts(run[n - 1], events[n - 1], run[n], a, b);
    }
  }

  // On a link from a switch to itself a single down event is enough to part adjacency from the
  // links known both ways: the reverse link is taken for a replacement.
  lemma SelfLinkDown(adj: Adjacency, links: set<Link>, l: Link, adj': Adjacency)
    requires l.dpid1 == l.dpid2
    requires AfterLinkEvent(adj, links, l, true, adj')
    requires l in links
    ensures ((l.dpid1, l.dpid1) in adj' <==> Joined(links - {l}, l.dpid1, l.dpid1))
       <==> (Flip(l) in links && Flip(l) != l ==> Joined(links - {l}, l.dpid1, l.dpid1))
  {
    var a := l.dpid1;
    assert Flip(Flip(l)) == l;
    if Joined(links - {l}, a, a) {
      var x :| BothWays(links - {l}, x) && x.dpid1 == a && x.dpid2 == a;
      assert Replaces(links, l, x);
    }
    if Flip(l) in links && Flip(l) != l {
      assert Replaces(links, l, Flip(l));
    }
    if exists ll :: Replaces(links, l, ll) {
      var ll :| Replaces(links, l, ll) && adj' == Connected(Disconnected(adj, l), ll);
      if Flip(ll) != l {
        assert BothWays(links - {l}, ll);
      } else {
        assert Flip(Flip(ll)) == ll;
      }
    }
  }

  // ---- what a path query answers ----

  ghost predicate IsAnswer(adj: Adjacency, p: seq<Leg>, src: Switch, dst: Switch, firstPort: Port, finalPort: Port) {
    && |p| > 0 && PortsMatch(adj, p)
    && p[0].inPort == Some(firstPort) && p[|p| - 1].outPort == Some(finalPort)
    && IsWalk(adj, Nodes(p), src, dst) && Simple(Nodes(p))
    && forall q :: IsWalk(adj, q, src, dst) ==> |p| <= |q|
  }

  // The legs of an answer cross links that discovery currently knows in both directions.
  lemma AnswerUsesLiveLinks(s: State, p: seq<Leg>, src: Switch, dst: Switch, firstPort: Port, finalPort: Port, i: nat)
    requires Inv(s) && IsAnswer(s.adjacency, p, src, dst, firstPort, finalPort)
    requires 0 < i < |p|
    ensures p[i - 1].outPort.Some? && p[i].inPort.Some?
    ensures BothWays(s.links, Link(p[i - 1].node, p[i - 1].outPort.value, p[i].node, p[i].inPort.value))
  {
    var a, b := p[i - 1].node, p[i].node;
    assert Nodes(p)[i - 1] == a && Nodes(p)[i - 1 + 1] == b;
    assert (a, b) in s.adjacency;
  }

  // A chain of distinct neighbours, each pair joined by a link known both ways.
  ghost predicate IsLinkPath(links: set<Link>, p: seq<Switch>, a: Switch, b: Switch) {
    && |p| > 0 && p[0] == a && p[|p| - 1] == b
    && forall i :: 0 <= i < |p| - 1 ==> p[i] != p[i + 1] && Joined(links, p[i], p[i + 1])
  }

  // A query finds a path exactly when live links connect the two switches.
  lemma AnsweredIffLinked(s: State, src: Switch, dst: Switch)
    requires Inv(s)
    ensures (exists p :: IsWalk(s.adjacency, p, src, dst)) <==> (exists p :: IsLinkPath(s.links, p, src, dst))
  {
    if p :| IsWalk(s.adjacency, p, src, dst) {
      var q := SimpleWalk(s.adjacency, p, src, dst);
      assert IsLinkPath(s.links, q, src, dst);
    }
    if p :| IsLinkPath(s.links, p, src, dst) {
      assert IsWalk(s.adjacency, p, src, dst);
    }
  }

  class Controller {
    var switches: seq<Switch>  // in order of first connection
    var adjacency: Adjacency
    var pathMap: PathMap
    var macMap: map<Mac, (Switch, Port)>

    ghost function Known(): set<Switch>
      reads this`switches
    {
      Elements(switches)
    }

    // adjacency concerns known switches, and the cached table is either absent or exact.
    ghost predicate Valid()
      reads this
    {
      && Over(adjacency, Known())
      && (pathMap == map[] || Exact(adjacency, pathMap))
    }

    constructor ()
      ensures Valid()
      ensures switches == [] && adjacency == map[] && pathMap == map[] && macMap == map[]
    {
      switches, adjacency, pathMap, macMap := [], map[], map[], map[];
    }

    method ConnectionUp(s: Switch)
      requires Valid()
      modifies this`switches
      ensures Valid()
      ensures switches == if s in old(switches) then old(switches) else old(switches) + [s]
      ensures forall links :: Step(old(Snapshot(links)), Connect(s), Snapshot(links))
    {
      if s !in switches {
        switches := switches + [s];
      }
    }

    // Lines 82-87: the direct adjacencies and the zero diagonal.
    method SeedPaths()
      modifies this`pathMap
      ensures Direct(adjacency, pathMap, Known())
    {
      pathMap := map[];
      for x := 0 to |switches|
        invariant Direct(adjacency, pathMap, Elements(switches[..x]))
      {
        var k := switches[x];
        var items := set e | e in adjacency && e.0 == k;
        ghost var before := pathMap;
        while items != {}
          invariant forall e :: e in items ==> e in adjacency && e.0 == k
          invariant forall e: (Switch, Switch) :: e.0 != k ==> (e in pathMap <==> e in before)
          invariant forall e :: e in pathMap && e.0 != k ==> pathMap[e] == before[e]
          invariant forall b :: (k, b) in adjacency && (k, b) !in items ==> (k, b) in pathMap
          invariant forall b :: (k, b) in pathMap && b != k ==> (k, b) in adjacency && pathMap[(k, b)] == Hop(1, None)
        {
          var e :| e in items;
          pathMap := pathMap[(k, e.1) := Hop(1, None)];
          items := items - {e};
        }
        assert items == {};
        assert forall b :: (k, b) !in items;
        assert forall b :: (k, b) in adjacency ==> (k, b) in pathMap;
        pathMap := pathMap[(k, k) := Hop(0, None)];
        assert switches[..x + 1] == switches[..x] + [k];
        forall e: (Switch, Switch)
          ensures e in pathMap <==> e.0 in switches[..x + 1] && (e.0 == e.1 || e in adjacency)
        {
          assert e == (e.0, e.1);
          if e.0 == k {
            assert (k, e.1) in adjacency ==> (k, e.1) in pathMap;
            assert k in switches[..x + 1];
          } else {
            assert e in pathMap <==> e in before;
            assert e.0 in switches[..x] <==> e.0 in switches[..x + 1];
          }
        }
      }
      assert switches[..|switches|] == switches;
    }

    // Lines 94-100: the body of the innermost loop.
    method TryIntermediate(k: Switch, i: Switch, j: Switch)
      modifies this`pathMap
      ensures pathMap == Relax(old(pathMap), k, i, j)
    {
      if (i, k) in pathMap {
        if (k, j) in pathMap {
          var dist := pathMap[(i, k)].dist + pathMap[(k, j)].dist;
          if (i, j) !in pathMap || dist < pathMap[(i, j)].dist {
            pathMap := pathMap[(i, j) := Hop(dist, Some(k))];
          }
        }
      }
    }

    // Lines 92-93: try k as intermediate of every pair.
    method RelaxThrough(k: Switch, ghost seen: set<Switch>)
      requires k in switches
      requires Progress(adjacency, pathMap, Known(), seen, k, {})
      modifies this`pathMap
      ensures forall k' :: Progress(adjacency, pathMap, Known(), seen + {k}, k', {})
    {
      hide Progress, Relax;
      ghost var nodes := Known();
      ghost var done: set<(Switch, Switch)> := {};
      for y := 0 to |switches|
        invariant Progress(adjacency, pathMap, nodes, seen, k, done)
        invariant forall a, b :: a in switches[..y] && b in nodes ==> (a, b) in done
      {
        var i := switches[y];
        for z := 0 to |switches|
          invariant Progress(adjacency, pathMap, nodes, seen, k, done)
          invariant forall a, b :: a in switches[..y] && b in nodes ==> (a, b) in done
          invariant forall b :: b in switches[..z] ==> (i, b) in done
        {
          var j := switches[z];
          RelaxProgress(adjacency, pathMap, nodes, seen, k, done, i, j);
          TryIntermediate(k, i, j);
          done := done + {(i, j)};
        }
      }
      forall k'
        ensures Progress(adjacency, pathMap, nodes, seen + {k}, k', {})
      {
        ProgressNext(adjacency, pathMap, nodes, seen, k, done, k');
      }
    }

    method CalcPaths()
      requires Over(adjacency, Known())
      modifies this`pathMap
      ensures Exact(adjacency, pathMap)
      ensures forall s :: s in switches ==> (s, s) in pathMap
    {
      SeedPaths();
      forall k
        ensures Progress(adjacency, pathMap, Known(), {}, k, {})
      {
        DirectStarts(adjacency, pathMap, Known(), k);
      }
      ghost var seen: set<Switch> := {};
      for x := 0 to |switches|
        invariant seen == Elements(switches[..x])
        invariant forall k :: Progress(adjacency, pathMap, Known(), seen, k, {})
      {
        ElementsAppend(switches, x);
        RelaxThrough(switches[x], seen);
        seen := seen + {switches[x]};
      }
      assert switches[..|switches|] == switches;
      assert Progress(adjacency, pathMap, Known(), seen, 0, {});
      ProgressEnds(adjacency, pathMap, Known(), seen, 0);
    }

    ghost function Snapshot(links: set<Link>): State
      reads this
    {
      State(Known(), adjacency, pathMap, links)
    }

    method GetRawPath(src: Switch, dst: Switch) returns (r: Option<seq<Switch>>)
      requires Valid()
      requires pathMap != map[] || src in switches
      modifies this`pathMap
      ensures Valid() && Exact(adjacency, pathMap) && pathMap != map[]
      ensures old(pathMap) != map[] ==> pathMap == old(pathMap)
      ensures r == if src == dst || (src, dst) in pathMap then Some(RawPath(adjacency, pathMap, src, dst)) else None
      decreases pathMap == map[], if (src, dst) in pathMap then pathMap[(src, dst)].dist else 0
    {
      if |pathMap| == 0 {
        CalcPaths();
        assert (src, src) in pathMap;
      }
      if src == dst {
        return Some([]);
      }
      if (src, dst) !in pathMap {
        return None;
      }
      assert EntryOk(adjacency, pathMap, (src, dst));
      match pathMap[(src, dst)].via
      case None =>
        return Some([]);
      case Some(m) =>
        assert EntryOk(adjacency, pathMap, (src, m)) && EntryOk(adjacency, pathMap, (m, dst));
        var left := GetRawPath(src, m);
        var right := GetRawPath(m, dst);
        return Some(left.value + [m] + right.value);
    }

    method GetPath(src: Switch, dst: Switch, firstPort: Port, finalPort: Port) returns (r: Option<seq<Leg>>)
      requires Valid()
      requires src in switches
      modifies this`pathMap
      ensures Valid()
      ensures forall links :: Step(old(Snapshot(links)), Query, Snapshot(links))
      ensures r.Some? <==> exists p :: IsWalk(adjacency, p, src, dst)
      ensures r.Some? ==> IsAnswer(adjacency, r.value, src, dst, firstPort, finalPort)
    {
      var path := [src];
      if src != dst {
        var raw := GetRawPath(src, dst);
        ExactIsShortest(adjacency, pathMap, src, dst);
        if raw.None? {
          return None;
        }
        path := [src] + raw.value + [dst];
        assert path == FullPath(adjacency, pathMap, src, dst);
        FullPathIsSimple(adjacency, pathMap, src, dst);
      }
      assert IsWalk(adjacency, path, src, dst);
      var legs := Cook(path, firstPort, finalPort);
      var legal := CheckPath(legs);
      assert legal;  // "Illegal path!" never fires
      return Some(legs);
    }

    // Lines 150-157: add the ports to a switch list.
    method Cook(path: seq<Switch>, firstPort: Port, finalPort: Port) returns (legs: seq<Leg>)
      requires |path| > 0
      ensures Nodes(legs) == path
      ensures PortsMatch(adjacency, legs)
      ensures legs[0].inPort == Some(firstPort) && legs[|legs| - 1].outPort == Some(finalPort)
    {
      legs := [];
      var inPort := Some(firstPort);
      for i := 0 to |path| - 1
        invariant |legs| == i
        invariant forall k :: 0 <= k < i ==> legs[k].node == path[k]
        invariant PortsMatch(adjacency, legs)
        invariant i > 0 ==> legs[0].inPort == Some(firstPort)
        invariant i > 0 ==> legs[i - 1].outPort == Lookup(adjacency, path[i - 1], path[i])
        invariant inPort == if i == 0 then Some(firstPort) else Lookup(adjacency, path[i], path[i - 1])
      {
        var s1, s2 := path[i], path[i + 1];
        legs := legs + [Leg(s1, inPort, Lookup(adjacency, s1, s2))];
        inPort := Lookup(adjacency, s2, s1);
      }
      legs := legs + [Leg(path[|path| - 1], inPort, Some(finalPort))];
    }

    method CheckPath(p: seq<Leg>) returns (legal: bool)
      ensures legal <==> PortsMatch(adjacency, p)
    {
      var i := 0;
      while i + 1 < |p|
        invariant i == 0 || i < |p|
        invariant forall k :: 0 < k <= i ==>
          && Lookup(adjacency, p[k - 1].node, p[k].node) == p[k - 1].outPort
          && Lookup(adjacency, p[k].node, p[k - 1].node) == p[k].inPort
      {
        if Lookup(adjacency, p[i].node, p[i + 1].node) != p[i].outPort {
          return false;
        }
        if Lookup(adjacency, p[i + 1].node, p[i].node) != p[i + 1].inPort {
          return false;
        }
        i := i + 1;
      }
      return true;
    }

    // Lines 450-460: maybe there is another way to connect the ends of l.
    method TakeReplacement(l: Link, links: set<Link>)
      modifies this`adjacency
      ensures Repaired(old(adjacency), links, l, adjacency)
      ensures Over(old(adjacency), Known()) && l.dpid1 in switches && l.dpid2 in switches ==> Over(adjacency, Known())
    {
      var todo := links;
      while todo != {}
        invariant todo <= links
        invariant adjacency == old(adjacency)
        invariant forall ll :: Replaces(links, l, ll) ==> ll in todo
      {
        var ll :| ll in todo;
        todo := todo - {ll};
        if ll == l {
          continue;
        }
        if ll.dpid1 == l.dpid1 && ll.dpid2 == l.dpid2 {
          if Flip(ll) in links {
            adjacency := adjacency[(l.dpid1, l.dpid2) := ll.port1];
            adjacency := adjacency[(l.dpid2, l.dpid1) := ll.port2];
            assert Replaces(links, l, ll) && adjacency == Connected(old(adjacency), ll);
            break;
          }
        }
      }
    }

    // links is discovery's adjacency while the event is handled.  An event that names an
    // unknown switch raises before anything changes.
    method HandleLinkEvent(l: Link, removed: bool, links: set<Link>) returns (ok: bool)
      requires Valid()
      modifies this`adjacency, this`pathMap, this`macMap
      ensures Valid()
      ensures ok <==> l.dpid1 in switches && l.dpid2 in switches
      ensures !ok ==> adjacency == old(adjacency) && pathMap == old(pathMap) && macMap == old(macMap)
      ensures ok ==> pathMap == map[] && AfterLinkEvent(old(adjacency), links, l, removed, adjacency)
      ensures !removed && (l.dpid1, l.dpid2) in old(adjacency) ==> adjacency == old(adjacency)
      ensures forall a, b :: {a, b} != Ends(l) ==> Lookup(adjacency, a, b) == Lookup(old(adjacency), a, b)
      ensures ok && !removed && l in links ==> Step(old(Snapshot(links)), LinkUp(l), Snapshot(links))
      ensures ok ==> macMap == if removed then old(macMap)
                               else map m | m in old(macMap)
                                            && old(macMap)[m] != (l.dpid1, l.port1)
                                            && old(macMap)[m] != (l.dpid2, l.port2) :: old(macMap)[m]
    {
      hide Repaired, Exact;
      if l.dpid1 !in switches || l.dpid2 !in switches {
        return false;
      }
      var sw1, sw2 := l.dpid1, l.dpid2;
      pathMap := map[];
      if removed {
        adjacency := adjacency - {(sw1, sw2)};
        adjacency := adjacency - {(sw2, sw1)};
        assert adjacency == Disconnected(old(adjacency), l);
        TakeReplacement(l, links);
      } else {
        if (sw1, sw2) !in adjacency {
          if Flip(l) in links {
            adjacency := adjacency[(sw1, sw2) := l.port1];
            adjacency := adjacency[(sw2, sw1) := l.port2];
          }
        }
        assert links + {l} == links || l !in links;
        var badMacs := set m | m in macMap && (macMap[m] == (sw1, l.port1) || macMap[m] == (sw2, l.port2));
        macMap := macMap - badMacs;
      }
      OthersStay(old(adjacency), links, l, removed, adjacency);
      return true;
    }

    // discovery._delete_links: the down events of a batch, then the links leave.
    method DeleteLinks(batch: seq<Link>, links: set<Link>) returns (links': set<Link>)
      requires Valid()
      requires forall l :: l in batch ==> l.dpid1 in switches && l.dpid2 in switches
      modifies this`adjacency, this`pathMap, this`macMap
      ensures Valid() && links' == links - Members(batch) && macMap == old(macMap)
      ensures Step(old(Snapshot(links)), LinksDown(batch), Snapshot(links'))
    {
      hide AfterLinkEvent, Controller.Valid;
      for i := 0 to |batch|
        invariant Valid() && AfterBatch(old(adjacency), links, batch[..i], adjacency) && macMap == old(macMap)
        invariant pathMap == if i == 0 then old(pathMap) else map[]
      {
        assert batch[..i + 1][..i] == batch[..i];
        assert batch[i] in batch;
        var ok := HandleLinkEvent(batch[i], true, links);
      }
      assert batch[..|batch|] == batch;
      links' := links;
      for i := 0 to |batch|
        invariant links' == links - Members(batch[..i])
      {
        assert batch[..i + 1] == batch[..i] + [batch[i]];
        assert Members(batch[..i + 1]) == Members(batch[..i]) + {batch[i]};
        links' := links' - {batch[i]};
      }
    }
  }
}
