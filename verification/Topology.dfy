/**
 The topology that committed link events describe, as the replica application and the viewer
 build it, and the MAC tables of the replica.
 */
module Topology {
  import opened Wrappers

  datatype Endpoint = Endpoint(dpid: string, port: int)

  type Link = (Endpoint, Endpoint)

  // LinkEventInfo.LinkStatus
  const UNSPECIFIED := 0
  const LINK_UP := 1
  const LINK_DOWN := 2

  const OFPP_FLOOD := 0xfffb
  const LLDP_TYPE := 0x88cc
  const IPV6_TYPE := 0x86dd

  // ---- endpoints in order ----

  predicate StringLe(a: string, b: string) {
    a == "" || (b != "" && (a[0] < b[0] || (a[0] == b[0] && StringLe(a[1..], b[1..]))))
  }

  predicate EndpointLe(a: Endpoint, b: Endpoint) {
    if a.dpid == b.dpid then a.port <= b.port else StringLe(a.dpid, b.dpid)
  }

  // tuple(sorted((a, b)))
  function Canon(a: Endpoint, b: Endpoint): Link {
    if EndpointLe(a, b) then (a, b) else (b, a)
  }

  function Ends(l: Link): set<Endpoint> {
    {l.0, l.1}
  }

  lemma {:induction false} StringOrder(a: string, b: string)
    ensures StringLe(a, b) || StringLe(b, a)
    ensures StringLe(a, b) && StringLe(b, a) ==> a == b
  {
    if a != "" && b != "" && a[0] == b[0] {
      StringOrder(a[1..], b[1..]);
      assert a == [a[0]] + a[1..] && b == [b[0]] + b[1..];
    }
  }

  // The sorted pair stands for the unordered pair.
  lemma CanonIsUnordered(a: Endpoint, b: Endpoint, c: Endpoint, d: Endpoint)
    ensures Canon(a, b) == Canon(c, d) <==> {a, b} == {c, d}
  {
    hide StringLe;
    StringOrder(a.dpid, b.dpid);
    CanonEnds(a, b);
    CanonEnds(c, d);
    if {a, b} == {c, d} {
      assert a in {c, d} && b in {c, d} && c in {a, b} && d in {a, b};
    }
  }

  // ---- the log ----

  datatype Operation =
    | Learn(dpid: string, mac: string, port: int)
    | LinkEvent(a: Endpoint, b: Endpoint, status: int)

  // A replica: MAC tables per switch, and the active links.
  datatype Replica = Replica(macs: map<string, map<string, int>>, links: set<Link>)

  function Learned(macs: map<string, map<string, int>>, dpid: string, mac: string, port: int)
      : map<string, map<string, int>>
  {
    macs[dpid := (if dpid in macs then macs[dpid] else map[])[mac := port]]
  }

  function Others(table: map<string, int>, port: int): map<string, int> {
    map m | m in table && table[m] != port :: table[m]
  }

  function Cleared(macs: map<string, map<string, int>>, dpid: string, port: int): map<string, map<string, int>> {
    if dpid !in macs || Others(macs[dpid], port) == macs[dpid] then macs
    else if Others(macs[dpid], port) == map[] then macs - {dpid}
    else macs[dpid := Others(macs[dpid], port)]
  }

  function Applied(r: Replica, op: Operation): Replica {
    match op
    case Learn(dpid, mac, port) => r.(macs := Learned(r.macs, dpid, mac, port))
    case LinkEvent(a, b, status) =>
      var l := Canon(a, b);
      if status == LINK_UP then r.(links := r.links + {l})
      else if status == LINK_DOWN && l in r.links
      then Replica(Cleared(Cleared(r.macs, a.dpid, a.port), b.dpid, b.port), r.links - {l})
      else r
  }

  function Run(ops: seq<Operation>): Replica {
    if ops == [] then Replica(map[], {}) else Applied(Run(ops[..|ops| - 1]), ops[|ops| - 1])
  }

  // ---- the replica application ----

  datatype Packet = Packet(parsed: bool, ethertype: int, src: string, dst: string)

  // What is sent for a known frame once its source is learned.
  function Decision(table: map<string, int>, dst: string, inPort: int): Option<int> {
    if dst !in table then Some(OFPP_FLOOD)
    else if table[dst] != inPort then Some(table[dst])
    else None
  }

  class DeterministicL2SwitchLogic {
    var macToPort: map<string, map<string, int>>
    var topologyActiveLinks: set<Link>

    function State(): Replica
      reads this
    {
      Replica(macToPort, topologyActiveLinks)
    }

    constructor ()
      ensures State() == Run([])
    {
      macToPort := map[];
      topologyActiveLinks := {};
    }

    method LearnMac(dpid: string, mac: string, port: int)
      modifies this
      ensures State() == Applied(old(State()), Learn(dpid, mac, port))
    {
      if dpid !in macToPort {
        macToPort := macToPort[dpid := map[]];
      }
      if mac !in macToPort[dpid] || macToPort[dpid][mac] != port {
        macToPort := macToPort[dpid := macToPort[dpid][mac := port]];
      } else {
        var table := macToPort[dpid];
        assert table == table[mac := port];
        assert macToPort == macToPort[dpid := table];
      }
    }

    // pkt is None when the Ethernet frame cannot be read at all.
    method ComputeAction(dpid: string, inPort: int, pkt: Option<Packet>) returns (outPort: Option<int>)
      modifies this
      ensures pkt.None? || !pkt.value.parsed || pkt.value.ethertype in {LLDP_TYPE, IPV6_TYPE} ==>
        outPort == None && State() == old(State())
      ensures pkt.Some? && pkt.value.parsed && pkt.value.ethertype !in {LLDP_TYPE, IPV6_TYPE} ==>
        && State() == Applied(old(State()), Learn(dpid, pkt.value.src, inPort))
        && dpid in macToPort && outPort == Decision(macToPort[dpid], pkt.value.dst, inPort)
        && (pkt.value.dst == pkt.value.src ==> outPort == None)
      ensures pkt.Some? && pkt.value.parsed && pkt.value.ethertype !in {LLDP_TYPE, IPV6_TYPE} ==>
        forall ops :: old(State()) == Run(ops) ==>
          Forwards(ops + [Learn(dpid, pkt.value.src, inPort)], dpid, pkt.value.dst, inPort, outPort)
    {
      if pkt.None? || !pkt.value.parsed {
        return None;
      }
      if pkt.value.ethertype == LLDP_TYPE || pkt.value.ethertype == IPV6_TYPE {
        return None;
      }
      var dst := pkt.value.dst;
      LearnMac(dpid, pkt.value.src, inPort);
      LearnedForwards(old(State()), dpid, pkt.value.src, dst, inPort);
      outPort := None;
      if dpid in macToPort {
        if dst in macToPort[dpid] {
          if macToPort[dpid][dst] != inPort {
            outPort := Some(macToPort[dpid][dst]);
          }
        } else {
          outPort := Some(OFPP_FLOOD);
        }
      } else {
        outPort := Some(OFPP_FLOOD);
      }
    }

    // The name of a status outside the enumeration does not exist: Name raises.
    method UpdateLinkState(a: Endpoint, b: Endpoint, status: int) returns (ok: bool)
      modifies this
      ensures ok <==> status in {UNSPECIFIED, LINK_UP, LINK_DOWN}
      ensures State() == Applied(old(State()), LinkEvent(a, b, status))
    {
      var l := Canon(a, b);
      if status != UNSPECIFIED && status != LINK_UP && status != LINK_DOWN {
        return false;
      }
      if status == LINK_UP {
        topologyActiveLinks := topologyActiveLinks + {l};
      } else if status == LINK_DOWN {
        if l in topologyActiveLinks {
          topologyActiveLinks := topologyActiveLinks - {l};
          ClearMacsForPort(a.dpid, a.port);
          ClearMacsForPort(b.dpid, b.port);
        }
      }
      return true;
    }

    method ClearMacsForPort(dpid: string, port: int)
      modifies this`macToPort
      ensures macToPort == Cleared(old(macToPort), dpid, port)
    {
      if dpid !in macToPort {
        return;
      }
      var table := macToPort[dpid];
      var macsToRemove := set m | m in table && table[m] == port;
      if macsToRemove == {} {
        NothingToClear(table, port);
        return;
      }
      var left := macsToRemove;
      while left != {}
        invariant left <= macsToRemove
        invariant dpid in macToPort && macToPort == old(macToPort)[dpid := macToPort[dpid]]
        invariant macToPort[dpid] == table - (macsToRemove - left)
      {
        var m :| m in left;
        left := left - {m};
        macToPort := macToPort[dpid := macToPort[dpid] - {m}];
      }
      assert macToPort[dpid] == Others(table, port);
      assert Others(table, port) != table by {
        var m :| m in macsToRemove;
        assert m in table && m !in Others(table, port);
      }
      if macToPort[dpid] == map[] {
        macToPort := macToPort - {dpid};
      }
    }
  }

  lemma NothingToClear(table: map<string, int>, port: int)
    requires (set m | m in table && table[m] == port) == {}
    ensures Others(table, port) == table
  {
    var found := set m | m in table && table[m] == port;
    forall m | m in table
      ensures table[m] != port
    {
      assert m !in found;
    }
  }

  // ---- active links ----

  // The last event for this pair that says up or down says up.
  ghost predicate LastUp(ops: seq<Operation>, pair: set<Endpoint>) {
    exists i :: UpAt(ops, pair, i) && NoDownAfter(ops, pair, i)
  }

  ghost predicate UpAt(ops: seq<Operation>, pair: set<Endpoint>, i: int) {
    0 <= i < |ops| && ops[i].LinkEvent? && {ops[i].a, ops[i].b} == pair && ops[i].status == LINK_UP
  }

  ghost predicate NoDownAfter(ops: seq<Operation>, pair: set<Endpoint>, i: int) {
    forall j :: i < j < |ops| && 0 <= j && ops[j].LinkEvent? && {ops[j].a, ops[j].b} == pair ==>
      ops[j].status != LINK_DOWN
  }

  lemma LastUpStep(ops: seq<Operation>, op: Operation, pair: set<Endpoint>)
    ensures LastUp(ops + [op], pair) <==>
      if op.LinkEvent? && {op.a, op.b} == pair && op.status in {LINK_UP, LINK_DOWN}
      then op.status == LINK_UP
      else LastUp(ops, pair)
  {
    var longer, n := ops + [op], |ops|;
    if op.LinkEvent? && {op.a, op.b} == pair && op.status == LINK_UP {
      assert UpAt(longer, pair, n) && NoDownAfter(longer, pair, n);
    } else if LastUp(longer, pair) {
      var i :| UpAt(longer, pair, i) && NoDownAfter(longer, pair, i);
      assert UpAt(ops, pair, i);
      forall j | i < j < n && 0 <= j && ops[j].LinkEvent? && {ops[j].a, ops[j].b} == pair
        ensures ops[j].status != LINK_DOWN
      {
        assert longer[j] == ops[j];
      }
      assert NoDownAfter(ops, pair, i);
      assert longer[n] == op;
    } else if LastUp(ops, pair) {
      var i :| UpAt(ops, pair, i) && NoDownAfter(ops, pair, i);
      assert UpAt(longer, pair, i);
    }
  }

  // A replica holds exactly the pairs whose last up or down event was up.
  lemma {:induction false} ActiveIffLastUp(ops: seq<Operation>, a: Endpoint, b: Endpoint)
    ensures Canon(a, b) in Run(ops).links <==> LastUp(ops, {a, b})
  {
    if ops != [] {
      hide LastUp, EndpointLe, Cleared, Learned, Canon;
      var n := |ops| - 1;
      var op := ops[n];
      ActiveIffLastUp(ops[..n], a, b);
      assert ops == ops[..n] + [op];
      LastUpStep(ops[..n], op, {a, b});
      if op.LinkEvent? {
        CanonIsUnordered(a, b, op.a, op.b);
      }
    }
  }

  lemma {:induction false} LinksAreSorted(ops: seq<Operation>, l: Link)
    requires l in Run(ops).links
    ensures Canon(l.0, l.1) == l
  {
    if ops != [] {
      var n := |ops| - 1;
      if l in Run(ops[..n]).links {
        LinksAreSorted(ops[..n], l);
      } else {
        StringOrder(l.0.dpid, l.1.dpid);
      }
    }
  }

  // ---- MAC tables ----

  predicate Holds(macs: map<string, map<string, int>>, dpid: string, mac: string, port: int) {
    dpid in macs && mac in macs[dpid] && macs[dpid][mac] == port
  }

  predicate NoEmptyTable(macs: map<string, map<string, int>>) {
    forall d :: d in macs ==> macs[d] != map[]
  }

  lemma HoldsCleared(macs: map<string, map<string, int>>, d: string, p: int, dpid: string, mac: string, port: int)
    ensures Holds(Cleared(macs, d, p), dpid, mac, port) <==> Holds(macs, dpid, mac, port) && !(d == dpid && p == port)
  {
    if d in macs {
      var rest := Others(macs[d], p);
      assert d == dpid ==> (mac in rest <==> mac in macs[d] && macs[d][mac] != p);
    }
  }

  lemma ClearedKeepsTables(macs: map<string, map<string, int>>, d: string, p: int)
    requires NoEmptyTable(macs)
    ensures NoEmptyTable(Cleared(macs, d, p))
  {
  }

  lemma {:induction false} NoTableIsEmpty(ops: seq<Operation>)
    ensures NoEmptyTable(Run(ops).macs)
  {
    if ops != [] {
      hide Cleared, Canon;
      var n := |ops| - 1;
      NoTableIsEmpty(ops[..n]);
      var macs, op := Run(ops[..n]).macs, ops[n];
      if op.LinkEvent? {
        ClearedKeepsTables(macs, op.a.dpid, op.a.port);
        ClearedKeepsTables(Cleared(macs, op.a.dpid, op.a.port), op.b.dpid, op.b.port);
      } else {
        LearnedKeepsTables(macs, op.dpid, op.mac, op.port);
      }
    }
  }

  lemma LearnedKeepsTables(macs: map<string, map<string, int>>, dpid: string, mac: string, port: int)
    requires NoEmptyTable(macs)
    ensures NoEmptyTable(Learned(macs, dpid, mac, port))
  {
    assert mac in Learned(macs, dpid, mac, port)[dpid];
  }

  // Operation j takes down a link that is active then and ends at this port.
  ghost predicate Forgets(ops: seq<Operation>, j: int, dpid: string, port: int) {
    && 0 <= j < |ops| && ops[j].LinkEvent? && ops[j].status == LINK_DOWN
    && (ops[j].a == Endpoint(dpid, port) || ops[j].b == Endpoint(dpid, port))
    && LastUp(ops[..j], {ops[j].a, ops[j].b})
  }

  // Operation i is the last to learn this address and nothing forgets its port afterwards.
  ghost predicate Kept(ops: seq<Operation>, i: int, dpid: string, mac: string, port: int) {
    && 0 <= i < |ops| && ops[i] == Learn(dpid, mac, port)
    && (forall j :: i < j < |ops| && ops[j].Learn? ==> !(ops[j].dpid == dpid && ops[j].mac == mac))
    && forall j :: i < j < |ops| ==> !Forgets(ops, j, dpid, port)
  }

  lemma ForgetsEarlier(ops: seq<Operation>, op: Operation, j: int, dpid: string, port: int)
    requires 0 <= j < |ops|
    ensures Forgets(ops + [op], j, dpid, port) <==> Forgets(ops, j, dpid, port)
  {
    assert (ops + [op])[..j] == ops[..j];
  }

  lemma KeptStep(ops: seq<Operation>, op: Operation, dpid: string, mac: string, port: int)
    ensures (exists i :: Kept(ops + [op], i, dpid, mac, port)) <==>
      if op.Learn? && op.dpid == dpid && op.mac == mac then op.port == port
      else (exists i :: Kept(ops, i, dpid, mac, port)) && !Forgets(ops + [op], |ops|, dpid, port)
  {
    hide Forgets;
    var longer, n := ops + [op], |ops|;
    forall j | 0 <= j < n
      ensures Forgets(longer, j, dpid, port) <==> Forgets(ops, j, dpid, port)
    {
      ForgetsEarlier(ops, op, j, dpid, port);
    }
    if op == Learn(dpid, mac, port) {
      assert Kept(longer, n, dpid, mac, port);
    }
    if i :| Kept(ops, i, dpid, mac, port) {
      if !(op.Learn? && op.dpid == dpid && op.mac == mac) && !Forgets(longer, n, dpid, port) {
        assert Kept(longer, i, dpid, mac, port);
      }
    }
    if i :| Kept(longer, i, dpid, mac, port) {
      assert longer[n] == op;
      if i < n {
        KeptEarlier(ops, op, i, dpid, mac, port);
      }
    }
  }

  lemma KeptEarlier(ops: seq<Operation>, op: Operation, i: int, dpid: string, mac: string, port: int)
    requires Kept(ops + [op], i, dpid, mac, port) && i < |ops|
    ensures Kept(ops, i, dpid, mac, port)
  {
    hide Forgets;
    var longer := ops + [op];
    forall j | i < j < |ops|
      ensures !Forgets(ops, j, dpid, port) && (ops[j].Learn? ==> !(ops[j].dpid == dpid && ops[j].mac == mac))
    {
      ForgetsEarlier(ops, op, j, dpid, port);
      assert longer[j] == ops[j];
    }
  }

  // A table entry is the last learn that no later event of an active link has cleared.
  lemma {:induction false} EntryIsLastLearn(ops: seq<Operation>, dpid: string, mac: string, port: int)
    ensures Holds(Run(ops).macs, dpid, mac, port) <==> exists i :: Kept(ops, i, dpid, mac, port)
  {
    if ops != [] {
      hide Cleared, Canon, LastUp, Kept, Holds, Learned;
      var n := |ops| - 1;
      var before, op := ops[..n], ops[n];
      var macs := Run(before).macs;
      EntryIsLastLearn(before, dpid, mac, port);
      KeptStep(before, op, dpid, mac, port);
      assert ops == before + [op];
      match op
      case Learn(d, m, p) =>
        HoldsLearned(macs, d, m, p, dpid, mac, port);
      case LinkEvent(a, b, status) =>
        ActiveIffLastUp(before, a, b);
        HoldsCleared(macs, a.dpid, a.port, dpid, mac, port);
        HoldsCleared(Cleared(macs, a.dpid, a.port), b.dpid, b.port, dpid, mac, port);
    } else {
      assert forall i :: !Kept(ops, i, dpid, mac, port);
    }
  }

  lemma HoldsLearned(macs: map<string, map<string, int>>, d: string, m: string, p: int, dpid: string,
          mac: string, port: int)
    ensures Holds(Learned(macs, d, m, p), dpid, mac, port) <==>
      if d == dpid && m == mac then p == port else Holds(macs, dpid, mac, port)
  {
  }

  // Where a frame for dst goes after these operations: to the port dst was last seen on, nowhere
  // if it came in there, and everywhere if dst is not known.
  ghost predicate Forwards(ops: seq<Operation>, dpid: string, dst: string, inPort: int, outPort: Option<int>) {
    && (forall i, p :: Kept(ops, i, dpid, dst, p) ==> outPort == if p == inPort then None else Some(p))
    && ((forall i, p :: !Kept(ops, i, dpid, dst, p)) ==> outPort == Some(OFPP_FLOOD))
  }

  lemma DecisionForwards(ops: seq<Operation>, dpid: string, dst: string, inPort: int)
    requires dpid in Run(ops).macs
    ensures Forwards(ops, dpid, dst, inPort, Decision(Run(ops).macs[dpid], dst, inPort))
  {
    hide Kept, Run;
    var table := Run(ops).macs[dpid];
    forall i, p | Kept(ops, i, dpid, dst, p)
      ensures dst in table && table[dst] == p
    {
      EntryIsLastLearn(ops, dpid, dst, p);
    }
    if dst in table {
      EntryIsLastLearn(ops, dpid, dst, table[dst]);
    }
  }

  lemma LearnedForwards(r: Replica, dpid: string, src: string, dst: string, inPort: int)
    ensures dpid in Learned(r.macs, dpid, src, inPort)
    ensures forall ops :: r == Run(ops) ==>
              Forwards(ops + [Learn(dpid, src, inPort)], dpid, dst, inPort,
                       Decision(Learned(r.macs, dpid, src, inPort)[dpid], dst, inPort))
  {
    hide Forwards, Decision;
    forall ops | r == Run(ops)
      ensures Forwards(ops + [Learn(dpid, src, inPort)], dpid, dst, inPort,
                       Decision(Learned(r.macs, dpid, src, inPort)[dpid], dst, inPort))
    {
      var longer := ops + [Learn(dpid, src, inPort)];
      assert longer[..|longer| - 1] == ops;
      DecisionForwards(longer, dpid, dst, inPort);
    }
  }

  // ---- either end may come first ----

  ghost predicate UpToSwaps(xs: seq<Operation>, ys: seq<Operation>) {
    && |xs| == |ys|
    && forall i :: 0 <= i < |xs| ==> xs[i] == ys[i] || Swap(xs[i], ys[i])
  }

  predicate Swap(x: Operation, y: Operation) {
    x.LinkEvent? && y == LinkEvent(x.b, x.a, x.status)
  }

  lemma SameEntries(xs: map<string, map<string, int>>, ys: map<string, map<string, int>>)
    requires NoEmptyTable(xs) && NoEmptyTable(ys)
    requires forall d, m, p :: Holds(xs, d, m, p) <==> Holds(ys, d, m, p)
    ensures xs == ys
  {
    forall d
      ensures d in xs <==> d in ys
      ensures d in xs && d in ys ==> xs[d] == ys[d]
    {
      if d in xs {
        var m :| m in xs[d];
        assert Holds(xs, d, m, xs[d][m]);
      }
      if d in ys {
        var m :| m in ys[d];
        assert Holds(ys, d, m, ys[d][m]);
      }
      if d in xs && d in ys {
        assert forall m :: m in xs[d] ==> Holds(xs, d, m, xs[d][m]);
        assert forall m :: m in ys[d] ==> Holds(ys, d, m, ys[d][m]);
      }
    }
  }

  lemma ClearsCommute(macs: map<string, map<string, int>>, a: Endpoint, b: Endpoint)
    requires NoEmptyTable(macs)
    ensures Cleared(Cleared(macs, a.dpid, a.port), b.dpid, b.port)
            == Cleared(Cleared(macs, b.dpid, b.port), a.dpid, a.port)
  {
    hide Cleared, Holds;
    var xs, ys := Cleared(macs, a.dpid, a.port), Cleared(macs, b.dpid, b.port);
    var xys, yxs := Cleared(xs, b.dpid, b.port), Cleared(ys, a.dpid, a.port);
    forall d, m, p
      ensures Holds(xys, d, m, p) <==> Holds(yxs, d, m, p)
    {
      HoldsCleared(macs, a.dpid, a.port, d, m, p);
      HoldsCleared(macs, b.dpid, b.port, d, m, p);
      HoldsCleared(xs, b.dpid, b.port, d, m, p);
      HoldsCleared(ys, a.dpid, a.port, d, m, p);
    }
    ClearedKeepsTables(macs, a.dpid, a.port);
    ClearedKeepsTables(macs, b.dpid, b.port);
    ClearedKeepsTables(xs, b.dpid, b.port);
    ClearedKeepsTables(ys, a.dpid, a.port);
    SameEntries(xys, yxs);
  }

  // Which end of a link an event names first makes no difference to a replica.
  lemma {:induction false} EndsMayBeSwapped(xs: seq<Operation>, ys: seq<Operation>)
    requires UpToSwaps(xs, ys)
    ensures Run(xs) == Run(ys)
  {
    if xs != [] {
      hide Cleared, Canon, Learned;
      var n := |xs| - 1;
      EndsMayBeSwapped(xs[..n], ys[..n]);
      var x, y := xs[n], ys[n];
      if x != y {
        NoTableIsEmpty(xs[..n]);
        CanonIsUnordered(x.a, x.b, y.a, y.b);
        ClearsCommute(Run(xs[..n]).macs, x.a, x.b);
      }
    }
  }

  // ---- the viewer ----

  // A transaction of a served block: malformed, of another kind, or a link event.
  datatype Served = Skipped | LinkData(a: Endpoint, b: Endpoint, status: string)

  function ToUpper(s: string): string {
    if s == "" then ""
    else [if 'a' <= s[0] <= 'z' then (s[0] as int - 32) as char else s[0]] + ToUpper(s[1..])
  }

  // The status a committed transaction is passed on with.
  function NotifiedStatus(s: string): int {
    if ToUpper(s) == "LINK_UP" then LINK_UP
    else if ToUpper(s) == "LINK_DOWN" then LINK_DOWN
    else UNSPECIFIED
  }

  // The operations a replica receives for one block, and for a chain.
  function Notified(txs: seq<Served>): seq<Operation> {
    if txs == [] then []
    else
      var t := txs[|txs| - 1];
      Notified(txs[..|txs| - 1]) + (if t.LinkData? then [LinkEvent(t.a, t.b, NotifiedStatus(t.status))] else [])
  }

  function NotifiedAll(blocks: seq<seq<Served>>): seq<Operation> {
    if blocks == [] then []
    else NotifiedAll(blocks[..|blocks| - 1]) + Notified(blocks[|blocks| - 1])
  }

  // ---- the same, read off the blocks ----

  // s is this word in letters of either case.
  predicate Reads(s: string, upper: string, lower: string)
    requires |upper| == |lower|
  {
    |s| == |upper| && forall i :: 0 <= i < |s| ==> s[i] == upper[i] || s[i] == lower[i]
  }

  predicate SaysUp(t: Served, pair: set<Endpoint>) {
    t.LinkData? && {t.a, t.b} == pair && Reads(t.status, "LINK_UP", "link_up")
  }

  predicate SaysDown(t: Served, pair: set<Endpoint>) {
    t.LinkData? && {t.a, t.b} == pair && Reads(t.status, "LINK_DOWN", "link_down")
  }

  ghost predicate UpIn(blocks: seq<seq<Served>>, pair: set<Endpoint>, i: int, k: int) {
    0 <= i < |blocks| && 0 <= k < |blocks[i]| && SaysUp(blocks[i][k], pair)
  }

  // No later transaction of block i or of a later block says down.
  ghost predicate NoDownIn(blocks: seq<seq<Served>>, pair: set<Endpoint>, i: int, k: int) {
    forall j, m :: 0 <= j < |blocks| && 0 <= m < |blocks[j]| && (i < j || (i == j && k < m)) ==>
      !SaysDown(blocks[j][m], pair)
  }

  ghost predicate LastUpIn(blocks: seq<seq<Served>>, pair: set<Endpoint>) {
    exists i, k :: UpIn(blocks, pair, i, k) && NoDownIn(blocks, pair, i, k)
  }

  lemma {:induction false} UpperAt(s: string)
    ensures |ToUpper(s)| == |s|
    ensures forall i :: 0 <= i < |s| ==>
              ToUpper(s)[i] == if 'a' <= s[i] <= 'z' then (s[i] as int - 32) as char else s[i]
  {
    if s != "" {
      UpperAt(s[1..]);
    }
  }

  lemma UpperIff(s: string, upper: string, lower: string)
    requires |upper| == |lower|
    requires forall i :: 0 <= i < |upper| ==>
               if 'A' <= upper[i] <= 'Z' then lower[i] as int == upper[i] as int + 32
               else lower[i] == upper[i] && !('a' <= upper[i] <= 'z')
    ensures ToUpper(s) == upper <==> Reads(s, upper, lower)
  {
    UpperAt(s);
    if Reads(s, upper, lower) {
      assert forall i :: 0 <= i < |s| ==> ToUpper(s)[i] == upper[i];
    }
  }

  // What a transaction says about a pair is what the replica is told.
  lemma ToldWhatItSays(t: Served, pair: set<Endpoint>)
    requires t.LinkData? && {t.a, t.b} == pair
    ensures SaysUp(t, pair) <==> NotifiedStatus(t.status) == LINK_UP
    ensures SaysDown(t, pair) <==> NotifiedStatus(t.status) == LINK_DOWN
  {
    hide ToUpper, Reads;
    UpperIff(t.status, "LINK_UP", "link_up");
    UpperIff(t.status, "LINK_DOWN", "link_down");
  }

  lemma EmptyBlockSaysNothing(blocks: seq<seq<Served>>, pair: set<Endpoint>)
    ensures LastUpIn(blocks + [[]], pair) <==> LastUpIn(blocks, pair)
  {
    hide SaysUp, SaysDown;
    var longer := blocks + [[]];
    if i, k :| UpIn(blocks, pair, i, k) && NoDownIn(blocks, pair, i, k) {
      assert UpIn(longer, pair, i, k) && NoDownIn(longer, pair, i, k);
    }
    if i, k :| UpIn(longer, pair, i, k) && NoDownIn(longer, pair, i, k) {
      forall j, m | 0 <= j < |blocks| && 0 <= m < |blocks[j]| && (i < j || (i == j && k < m))
        ensures !SaysDown(blocks[j][m], pair)
      {
        assert longer[j] == blocks[j];
      }
      assert UpIn(blocks, pair, i, k) && NoDownIn(blocks, pair, i, k);
    }
  }

  lemma LastUpInStep(blocks: seq<seq<Served>>, txs: seq<Served>, t: Served, pair: set<Endpoint>)
    ensures LastUpIn(blocks + [txs + [t]], pair)
       <==> SaysUp(t, pair) || (LastUpIn(blocks + [txs], pair) && !SaysDown(t, pair))
  {
    hide SaysUp, SaysDown;
    var shorter, longer, n := blocks + [txs], blocks + [txs + [t]], |blocks|;
    assert forall j, m :: 0 <= j <= n && 0 <= m < |shorter[j]| ==> longer[j][m] == shorter[j][m];
    assert longer[n][|txs|] == t;
    if SaysUp(t, pair) {
      assert UpIn(longer, pair, n, |txs|) && NoDownIn(longer, pair, n, |txs|);
    } else {
      if LastUpIn(shorter, pair) && !SaysDown(t, pair) {
        var i, k :| UpIn(shorter, pair, i, k) && NoDownIn(shorter, pair, i, k);
        assert UpIn(longer, pair, i, k) && NoDownIn(longer, pair, i, k);
      }
      if i, k :| UpIn(longer, pair, i, k) && NoDownIn(longer, pair, i, k) {
        assert UpIn(shorter, pair, i, k) && NoDownIn(shorter, pair, i, k);
      }
    }
  }

  // A pair's last word in the blocks is its last event at the replicas.
  lemma {:induction false} BlocksSayWhatIsTold(blocks: seq<seq<Served>>, pair: set<Endpoint>)
    ensures LastUp(NotifiedAll(blocks), pair) <==> LastUpIn(blocks, pair)
    decreases |blocks|, if blocks == [] then 0 else |blocks[|blocks| - 1]|
  {
    if blocks != [] {
      hide LastUp, LastUpIn, SaysUp, SaysDown, NotifiedStatus;
      var n := |blocks| - 1;
      var before, txs := blocks[..n], blocks[n];
      assert blocks == before + [txs];
      if txs == [] {
        BlocksSayWhatIsTold(before, pair);
        EmptyBlockSaysNothing(before, pair);
        assert NotifiedAll(blocks) == NotifiedAll(before);
      } else {
        var front, t := txs[..|txs| - 1], txs[|txs| - 1];
        assert txs == front + [t];
        BlocksSayWhatIsTold(before + [front], pair);
        LastUpInStep(before, front, t, pair);
        assert (before + [front])[..n] == before;
        var told := NotifiedAll(before + [front]);
        if t.LinkData? {
          var op := LinkEvent(t.a, t.b, NotifiedStatus(t.status));
          assert NotifiedAll(blocks) == told + [op];
          LastUpStep(told, op, pair);
          OtherPairSaysNothing(t, pair);
          if {t.a, t.b} == pair {
            ToldWhatItSays(t, pair);
          }
        } else {
          assert NotifiedAll(blocks) == told;
          OtherPairSaysNothing(t, pair);
        }
      }
    } else {
      assert !LastUp([], pair) && !LastUpIn(blocks, pair);
    }
  }

  lemma OtherPairSaysNothing(t: Served, pair: set<Endpoint>)
    ensures SaysUp(t, pair) || SaysDown(t, pair) ==> t.LinkData? && {t.a, t.b} == pair
    ensures !(SaysUp(t, pair) && SaysDown(t, pair))
  {
  }

  ghost predicate Shows(active: set<set<Endpoint>>, ops: seq<Operation>) {
    forall a, b :: {a, b} in active <==> LastUp(ops, {a, b})
  }

  ghost predicate Pairs(active: set<set<Endpoint>>) {
    forall pair :: pair in active ==> exists a, b :: pair == {a, b}
  }

  lemma NothingShown()
    ensures Shows({}, [])
  {
  }

  lemma ShowStep(active: set<set<Endpoint>>, ops: seq<Operation>, a: Endpoint, b: Endpoint, status: string)
    requires Shows(active, ops)
    ensures Shows(if ToUpper(status) == "LINK_UP" then active + {{a, b}}
                  else if ToUpper(status) == "LINK_DOWN" then active - {{a, b}} else active,
                  ops + [LinkEvent(a, b, NotifiedStatus(status))])
  {
    hide LastUp;
    forall c, d
      ensures var op := LinkEvent(a, b, NotifiedStatus(status));
        LastUp(ops + [op], {c, d}) <==>
        if {a, b} == {c, d} && op.status in {LINK_UP, LINK_DOWN} then op.status == LINK_UP else LastUp(ops, {c, d})
    {
      LastUpStep(ops, LinkEvent(a, b, NotifiedStatus(status)), {c, d});
    }
  }

  // fetch_topology_from_blockchain: blocks without transactions and malformed ones are skipped.
  method FetchTopology(blocks: seq<seq<Served>>) returns (active: set<set<Endpoint>>)
    ensures forall a, b :: {a, b} in active <==> LastUpIn(blocks, {a, b})
    ensures active == set l | l in Run(NotifiedAll(blocks)).links :: Ends(l)
  {
    hide LastUp, LastUpIn, Run, ToUpper;
    active := {};
    NothingShown();
    for i := 0 to |blocks|
      invariant Shows(active, NotifiedAll(blocks[..i])) && Pairs(active)
    {
      var txs := blocks[i];
      ghost var before := NotifiedAll(blocks[..i]);
      assert before + Notified(txs[..0]) == before;
      for k := 0 to |txs|
        invariant Shows(active, before + Notified(txs[..k])) && Pairs(active)
      {
        assert txs[..k + 1][..k] == txs[..k];
        ghost var known := before + Notified(txs[..k]);
        if txs[k].LinkData? {
          var a, b, status := txs[k].a, txs[k].b, ToUpper(txs[k].status);
          ShowStep(active, known, a, b, txs[k].status);
          assert before + Notified(txs[..k + 1]) == known + [LinkEvent(a, b, NotifiedStatus(txs[k].status))];
          if status == "LINK_UP" {
            active := active + {{a, b}};
          } else if status == "LINK_DOWN" {
            active := active - {{a, b}};
          }
        } else {
          assert Notified(txs[..k + 1]) == Notified(txs[..k]);
        }
      }
      assert txs[..|txs|] == txs;
      assert blocks[..i + 1][..i] == blocks[..i];
    }
    assert blocks[..|blocks|] == blocks;
    ReplicaShowsSame(blocks, active);
    forall a, b
      ensures {a, b} in active <==> LastUpIn(blocks, {a, b})
    {
      BlocksSayWhatIsTold(blocks, {a, b});
    }
  }

  // Replica and viewer show the same links for the same chain.
  lemma ReplicaShowsSame(blocks: seq<seq<Served>>, active: set<set<Endpoint>>)
    requires Shows(active, NotifiedAll(blocks))
    requires Pairs(active)
    ensures (set l | l in Run(NotifiedAll(blocks)).links :: Ends(l)) == active
  {
    hide LastUp, Run, Canon;
    var links := Run(NotifiedAll(blocks)).links;
    forall pair | pair in active
      ensures exists l :: l in links && Ends(l) == pair
    {
      var a, b :| pair == {a, b};
      ActiveIffLastUp(NotifiedAll(blocks), a, b);
      CanonEnds(a, b);
      assert Canon(a, b) in links;
    }
    forall l | l in links
      ensures Ends(l) in active
    {
      LinksAreSorted(NotifiedAll(blocks), l);
      ActiveIffLastUp(NotifiedAll(blocks), l.0, l.1);
    }
  }

  lemma CanonEnds(a: Endpoint, b: Endpoint)
    ensures Ends(Canon(a, b)) == {a, b}
  {
  }
}
