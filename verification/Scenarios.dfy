/**
 Reachable states, and a network that meets the assumptions of Agreement: four validators, one
 of them faulty, append a block.
 */
module Scenarios {
  import opened Wrappers
  import opened Ledger
  import opened VotePools
  import opened Agreement
  import opened Encodings

  // ---- reachable states ----

  // How many announcements carry another number than the pooled block.
  function Wrong(run: seq<Net>, events: seq<Event>): nat
    requires |run| > |events|
  {
    if events == [] then 0
    else
      var n := |events| - 1;
      Wrong(run, events[..n]) + if AsPooled(run[n], events[n]) then 0 else 1
  }

  ghost predicate Leads(p: Params, w: nat, run: seq<Net>, events: seq<Event>, to: Net)
    requires MembersOk(p.members)
  {
    IsRun(p, run, events) && run[|run| - 1] == to && Wrong(run, events) == w
  }

  // Some run leads to s with w wrong announcements.
  ghost predicate Reached(p: Params, w: nat, s: Net)
    requires MembersOk(p.members)
  {
    exists run, events :: Leads(p, w, run, events, s)
  }

  lemma {:induction false} WrongOfFront(run: seq<Net>, events: seq<Event>, s: Net)
    requires |run| > |events|
    ensures Wrong(run + [s], events) == Wrong(run, events)
  {
    if events != [] {
      WrongOfFront(run, events[..|events| - 1], s);
    }
  }

  lemma {:induction false} NoneWrong(run: seq<Net>, events: seq<Event>)
    requires |run| > |events| && Wrong(run, events) == 0
    ensures AnnouncedAsPooled(run, events, |events|)
  {
    if events != [] {
      NoneWrong(run, events[..|events| - 1]);
    }
  }

  lemma ReachNext(p: Params, w: nat, s: Net, e: Event, s': Net)
    requires MembersOk(p.members) && Reached(p, w, s) && Step(p, s, e, s')
    ensures Reached(p, if AsPooled(s, e) then w else w + 1, s')
  {
    hide Step, AsPooled, Initial;
    var run, events :| Leads(p, w, run, events, s);
    var run', events' := run + [s'], events + [e];
    forall i | 0 <= i < |events'|
      ensures Step(p, run'[i], events'[i], run'[i + 1])
    {
      if i < |events| {
        assert Step(p, run[i], events[i], run[i + 1]);
      }
    }
    assert events'[..|events|] == events;
    WrongOfFront(run, events, s');
    assert Leads(p, if AsPooled(s, e) then w else w + 1, run', events', s');
  }

  lemma ReachStart(p: Params, s: Net)
    requires MembersOk(p.members) && Initial(p, s)
    ensures Reached(p, 0, s)
  {
    hide Initial;
    assert Leads(p, 0, [s], [], s);
  }

  // ---- the steps of one node ----

  lemma TakesUp(p: Params, w: nat, s: Net, n: Key, b: Block) returns (s': Net)
    requires MembersOk(p.members) && Reached(p, w, s) && n in s.nodes
    requires s.nodes[n].phase == NewRound && Next(p, s.nodes[n].chain, b) && b.hash !in s.nodes[n].blockPool
    ensures Reached(p, w, s')
    ensures s' == Put(s, n, Entered(p, n, s.nodes[n].(blockPool := s.nodes[n].blockPool[b.hash := b]), b.hash))
                  .(prepared := s.prepared + {(n, b.hash)})
  {
    hide Next, Reached, Entered;
    var node := s.nodes[n].(blockPool := s.nodes[n].blockPool[b.hash := b]);
    var mid := Put(s, n, node);
    ReachNext(p, w, s, ReceivePrePrepare(n, b), mid);
    s' := Put(mid, n, Entered(p, n, node, b.hash)).(prepared := s.prepared + {(n, b.hash)});
    ReachNext(p, w, mid, EnterFromPool(n, b), s');
    assert s'.nodes == s.nodes[n := Entered(p, n, node, b.hash)];
  }

  lemma HearsPrepare(p: Params, w: nat, s: Net, n: Key, k: Key, hash: Bytes) returns (s': Net)
    requires MembersOk(p.members) && Reached(p, w, s) && n in s.nodes && (k, hash) in s.prepared
    ensures Reached(p, w, s')
    ensures s' == Put(s, n, s.nodes[n].(prepares := Added(s.nodes[n].prepares, PrepareVote(p, k, hash))))
  {
    hide Reached, Added;
    s' := Put(s, n, s.nodes[n].(prepares := Added(s.nodes[n].prepares, PrepareVote(p, k, hash))));
    ReachNext(p, w, s, ReceivePrepare(n, PrepareVote(p, k, hash)), s');
  }

  lemma HearsCommit(p: Params, w: nat, s: Net, n: Key, k: Key, hash: Bytes) returns (s': Net)
    requires MembersOk(p.members) && Reached(p, w, s) && n in s.nodes && (k, hash) in s.committed
    ensures Reached(p, w, s')
    ensures s' == Put(s, n, s.nodes[n].(commits := Added(s.nodes[n].commits, CommitVote(p, k, hash))))
  {
    hide Reached, Added;
    s' := Put(s, n, s.nodes[n].(commits := Added(s.nodes[n].commits, CommitVote(p, k, hash))));
    ReachNext(p, w, s, ReceiveCommit(n, CommitVote(p, k, hash)), s');
  }

  predicate PreparesReached(p: Params, node: Node) {
    ActiveCount(node.prepares, node.currentHash, Active(p, node)) >= MinApprovals(|Active(p, node)|)
  }

  lemma Commits(p: Params, w: nat, s: Net, n: Key) returns (s': Net)
    requires MembersOk(p.members) && Reached(p, w, s) && n in s.nodes
    requires s.nodes[n].phase == Prepared && PreparesReached(p, s.nodes[n])
    ensures Reached(p, w, s')
    ensures var node := s.nodes[n];
      s' == Put(s, n, PreparesCounted(p, n, node)).(committed := s.committed + {(n, node.currentHash)})
    ensures s'.nodes[n] == s.nodes[n].(phase := Committed, prepares := s'.nodes[n].prepares,
                                       commits := Added(s.nodes[n].commits, CommitVote(p, n, s.nodes[n].currentHash)))
  {
    hide Reached, ActiveCount, Active, Added, Counted;
    var node := s.nodes[n];
    s' := Put(s, n, PreparesCounted(p, n, node)).(committed := s.committed + {(n, node.currentHash)});
    ReachNext(p, w, s, CountPrepares(n), s');
  }

  lemma Appends(p: Params, w: nat, s: Net, n: Key) returns (s': Net)
    requires MembersOk(p.members) && Reached(p, w, s) && n in s.nodes
    requires s.nodes[n].phase == Committed && CommitsReached(p, s.nodes[n])
    ensures Reached(p, w, s')
    ensures s' == Put(s, n, CommitsCounted(p, s.nodes[n], false))
    ensures var node, node' := s.nodes[n], s'.nodes[n];
      node' == node.(phase := NewRound, chain := node.chain + [node.blockPool[node.currentHash]],
                     commits := node'.commits)
  {
    hide Reached, ActiveCount, Active, Counted;
    s' := Put(s, n, CommitsCounted(p, s.nodes[n], false));
    ReachNext(p, w, s, CountCommits(n, false), s');
  }

  // A node proposes an empty block and takes it up.
  lemma Proposes(p: Params, w: nat, s: Net, n: Key, now: int, b: Block) returns (s': Net)
    requires MembersOk(p.members) && Reached(p, w, s) && n in s.nodes
    requires s.nodes[n].phase == NewRound && Next(p, s.nodes[n].chain, b)
    requires s.nodes[n].chain != [] && b == CreateBlock(p.crypto, s.nodes[n].chain[|s.nodes[n].chain| - 1], now, [], n)
    ensures Reached(p, w, s')
    ensures s' == Put(s, n, Entered(p, n, s.nodes[n].(blockPool := s.nodes[n].blockPool[b.hash := b]), b.hash))
                  .(prepared := s.prepared + {(n, b.hash)})
  {
    IsElected(p, s.nodes[n].chain, b, n);
    hide Next, Reached, Entered, CreateBlock, ProposerAfter;
    var node := s.nodes[n].(blockPool := s.nodes[n].blockPool[b.hash := b]);
    var mid := Put(s, n, node);
    ReachNext(p, w, s, Propose(n, now, []), mid);
    s' := Put(mid, n, Entered(p, n, node, b.hash)).(prepared := s.prepared + {(n, b.hash)});
    ReachNext(p, w, mid, EnterFromPool(n, b), s');
    assert s'.nodes == s.nodes[n := Entered(p, n, node, b.hash)];
  }

  lemma IsElected(p: Params, chain: seq<Block>, b: Block, n: Key)
    requires MembersOk(p.members) && chain != [] && Next(p, chain, b) && b.proposer == n
    ensures n == ProposerAfter(p.members, chain).key
  {
    hide ProposerAfter;
  }

  // ---- parameters ----

  // Every transaction verifies, so every node may put commands into a block.
  function NetworkOf(nodes: seq<Key>, active: set<Key>, honest: set<Key>): Params {
    Params(EncodedCrypto(), Members(nodes, active), honest, h => h + [1], h => h + [2])
  }

  function StartOf(p: Params): Net {
    Net(map n | n in p.honest :: Node(NewRound, [], [Genesis(p.crypto)], map[], map[], map[]), {}, {})
  }

  lemma NetworkIsOk(nodes: seq<Key>, active: set<Key>, honest: set<Key>)
    ensures ParamsOk(NetworkOf(nodes, active, honest))
  {
    hide Sound, OneTopicPerHash;
    var p := NetworkOf(nodes, active, honest);
    EncodedIsSound();
    TopicsDiffer(p.prepareTopic, 1);
    TopicsDiffer(p.commitTopic, 2);
  }

  lemma TopicsDiffer(topic: Bytes -> Bytes, salt: Byte)
    requires forall h :: topic(h) == h + [salt]
    ensures OneTopicPerHash(topic)
  {
    forall g, h | topic(g) == topic(h)
      ensures g == h
    {
      assert g == (g + [salt])[..|g + [salt]| - 1] && h == (h + [salt])[..|h + [salt]| - 1];
    }
  }

  // ---- four validators, one of them faulty ----

  lemma ThreeCount(p: Params, topic: Bytes -> Bytes, h: Bytes, i: Key, j: Key, k: Key, active: set<Key>)
    requires Sound(p.crypto) && i != j && i != k && j != k && {i, j, k} <= active
    ensures var u, v, w := Vote(h, i, p.crypto.sign(i, topic(h))), Vote(h, j, p.crypto.sign(j, topic(h))),
                          Vote(h, k, p.crypto.sign(k, topic(h)));
      ActiveCount(Added(Added(Added(map[], u), v), w), h, active) == 3
  {
    var r, s, t := p.crypto.sign(i, topic(h)), p.crypto.sign(j, topic(h)), p.crypto.sign(k, topic(h));
    assert r != s && r != t && s != t;
    hide Sound;
    CountThree(h, r, s, t, i, j, k, active);
  }

  lemma CountThree(h: Bytes, r: Bytes, s: Bytes, t: Bytes, i: Key, j: Key, k: Key, active: set<Key>)
    requires r != s && r != t && s != t && {i, j, k} <= active
    ensures ActiveCount(Added(Added(Added(map[], Vote(h, i, r)), Vote(h, j, s)), Vote(h, k, t)), h, active) == 3
  {
    var pool := Added(Added(Added(map[], Vote(h, i, r)), Vote(h, j, s)), Vote(h, k, t));
    assert pool[h].unconfirmed == map[r := i, s := j, t := k] && pool[h].confirmed == map[];
    assert VotesOf(Counted(pool, h, active), h).confirmed == map[r := i, s := j, t := k];
    assert |map[r := i, s := j, t := k]| == 3;
  }

  // Entered, a node that hears two more prepares commits.
  lemma HearsAndCommits(p: Params, s: Net, n: Key, i: Key, j: Key) returns (s': Net)
    requires MembersOk(p.members) && ParamsOk(p) && Reached(p, 0, s) && n in s.nodes && s.nodes[n].phase == Prepared
    requires var h := s.nodes[n].currentHash;
      s.nodes[n].prepares == Added(map[], PrepareVote(p, n, h)) && (i, h) in s.prepared && (j, h) in s.prepared
    requires n != i && n != j && i != j && {n, i, j} <= Active(p, s.nodes[n]) && |Active(p, s.nodes[n])| == 4
    ensures Reached(p, 0, s') && s'.prepared == s.prepared
    ensures s'.committed == s.committed + {(n, s.nodes[n].currentHash)} && n in s'.nodes
    ensures s'.nodes == s.nodes[n := s'.nodes[n]]
    ensures s'.nodes[n] == s.nodes[n].(phase := Committed, prepares := s'.nodes[n].prepares,
                                       commits := Added(s.nodes[n].commits, CommitVote(p, n, s.nodes[n].currentHash)))
  {
    hide Reached, ActiveCount, ActiveAfter, Added, Sound, OneTopicPerHash, PreparesCounted;
    var h := s.nodes[n].currentHash;
    var s1 := HearsPrepare(p, 0, s, n, i, h);
    var s2 := HearsPrepare(p, 0, s1, n, j, h);
    ThreeCount(p, p.prepareTopic, h, n, i, j, Active(p, s.nodes[n]));
    s' := Commits(p, 0, s2, n);
  }

  lemma HearsAndAppends(p: Params, s: Net, n: Key, i: Key, j: Key) returns (s': Net)
    requires MembersOk(p.members) && ParamsOk(p) && Reached(p, 0, s) && n in s.nodes && s.nodes[n].phase == Committed
    requires var h := s.nodes[n].currentHash;
      && s.nodes[n].commits == Added(map[], CommitVote(p, n, h)) && (i, h) in s.committed && (j, h) in s.committed
      && h in s.nodes[n].blockPool
    requires n != i && n != j && i != j && {n, i, j} <= Active(p, s.nodes[n]) && |Active(p, s.nodes[n])| == 4
    ensures Reached(p, 0, s') && n in s'.nodes && s'.committed == s.committed
    ensures s'.nodes[n].chain == s.nodes[n].chain + [s.nodes[n].blockPool[s.nodes[n].currentHash]]
  {
    hide Reached, ActiveCount, ActiveAfter, Added, Sound, OneTopicPerHash, CommitsCounted;
    var h := s.nodes[n].currentHash;
    var s1 := HearsCommit(p, 0, s, n, i, h);
    var s2 := HearsCommit(p, 0, s1, n, j, h);
    ThreeCount(p, p.commitTopic, h, n, i, j, Active(p, s.nodes[n]));
    s' := Appends(p, 0, s2, n);
  }

  lemma FirstBlock(p: Params) returns (b: Block)
    requires MembersOk(p.members) && forall t :: p.crypto.verifyTransaction(t)
    ensures Next(p, [Genesis(p.crypto)], b) && b.transactions == []
  {
    var genesis := [Genesis(p.crypto)];
    b := CreateBlock(p.crypto, genesis[0], 0, [], ProposerAfter(p.members, genesis).key);
    CreatedBlockIsValid(p.crypto, p.members, genesis, 0, [], ProposerAfter(p.members, genesis).key);
  }

  lemma GenesisActive(m: Members, genesis: Block)
    requires genesis.transactions == []
    ensures ActiveAfter(m, [genesis]) == m.initial
  {
    assert [genesis][..0] == [];
  }

  lemma FaultyVotes(p: Params, f: Key, h: Bytes) returns (s: Net)
    requires MembersOk(p.members) && f !in p.honest
    ensures Reached(p, 0, s) && s == StartOf(p).(prepared := {(f, h)}, committed := {(f, h)})
  {
    hide Reached;
    var s0 := StartOf(p);
    ReachStart(p, s0);
    var s1 := s0.(prepared := {(f, h)});
    ReachNext(p, 0, s0, FaultyPrepare(f, h), s1);
    s := s1.(committed := {(f, h)});
    ReachNext(p, 0, s1, FaultyCommit(f, h), s);
  }

  lemma TakenUp(p: Params, s: Net, n: Key, b: Block) returns (s': Net)
    requires MembersOk(p.members) && Reached(p, 0, s) && n in s.nodes
    requires s.nodes[n] == Node(NewRound, [], [Genesis(p.crypto)], map[], map[], map[])
    requires Next(p, [Genesis(p.crypto)], b)
    ensures Reached(p, 0, s') && s'.committed == s.committed && s'.prepared == s.prepared + {(n, b.hash)}
    ensures
      s'.nodes == s.nodes[n := Node(Prepared, b.hash, [Genesis(p.crypto)], map[b.hash := b],
                                    Added(map[], PrepareVote(p, n, b.hash)), map[])]
  {
    hide Reached, Next, Added, Genesis;
    s' := TakesUp(p, 0, s, n, b);
  }

  // Whatever network of four this is: with the faulty one's votes, two of the others suffice.
  lemma TwoAndAFaultyAppend(p: Params, a: Key, b: Key, f: Key, block: Block) returns (s: Net)
    requires MembersOk(p.members) && ParamsOk(p) && {a, b} <= p.honest && f !in p.honest && a != b
    requires p.members.initial >= {a, b, f} && |p.members.initial| == 4 && Next(p, [Genesis(p.crypto)], block)
    ensures Reached(p, 0, s) && a in s.nodes && s.nodes[a].chain == [Genesis(p.crypto), block]
    ensures (f, block.hash) in s.committed
  {
    hide Reached, Next, ParamsOk, MembersOk, ActiveAfter, Genesis, Added;
    var h, genesis := block.hash, Genesis(p.crypto);
    NoTransactions(p.crypto);
    GenesisActive(p.members, genesis);
    var s0 := FaultyVotes(p, f, h);
    var s1 := TakenUp(p, s0, a, block);
    var s2 := TakenUp(p, s1, b, block);
    var s3 := HearsAndCommits(p, s2, a, b, f);
    var s4 := HearsAndCommits(p, s3, b, a, f);
    s := HearsAndAppends(p, s4, a, b, f);
  }

  lemma NoTransactions(c: Crypto)
    ensures Genesis(c).transactions == []
  {
  }

  // A network in which one of four validators is faulty, and votes, meets every assumption and
  // appends a block.
  lemma OneOfFourFaulty(a: Key, b: Key, c: Key, f: Key) returns (p: Params, run: seq<Net>, events: seq<Event>)
    requires Distinct([a, b, c, f])
    ensures MembersOk(p.members) && ParamsOk(p) && p.members == Members([a, b, c, f], {a, b, c, f})
    ensures p.honest == {a, b, c}
    ensures forall t :: p.crypto.verifyTransaction(t)
    ensures IsRun(p, run, events) && AnnouncedAsPooled(run, events, |events|)
    ensures var last := run[|run| - 1];
      && a in last.nodes && |last.nodes[a].chain| == 2 && FewFaultyAlong(p, last.nodes[a].chain)
      && (f, last.nodes[a].chain[1].hash) in last.committed
  {
    p := NetworkOf([a, b, c, f], {a, b, c, f}, {a, b, c});
    NetworkIsOk([a, b, c, f], {a, b, c, f}, {a, b, c});
    FourKeys(a, b, c, f);
    hide ParamsOk, IsRun, AnnouncedAsPooled, EncodedCrypto, Next, ActiveAfter, Genesis, FewFaultyAlong;
    var block := FirstBlock(p);
    var s := TwoAndAFaultyAppend(p, a, b, f, block);
    FewAmongFour(p, block, f);
    run, events :| Leads(p, 0, run, events, s);
    NoneWrong(run, events);
  }

  lemma FourKeys(a: Key, b: Key, c: Key, f: Key)
    requires Distinct([a, b, c, f])
    ensures a != b && f !in {a, b, c} && |{a, b, c, f}| == 4 && MembersOk(Members([a, b, c, f], {a, b, c, f}))
    ensures {a, b, c, f} - {a, b, c} == {f}
  {
    var s := [a, b, c, f];
    assert s[0] != s[1] && s[0] != s[2] && s[0] != s[3] && s[1] != s[2] && s[1] != s[3] && s[2] != s[3];
    assert |{a, b}| == 2 && |{a, b, c}| == 3;
    assert {a, b, c, f} == {a, b, c} + {f};
  }

  lemma FewAmongFour(p: Params, block: Block, f: Key)
    requires |p.members.initial| == 4 && p.members.initial - p.honest == {f}
    ensures FewFaultyAlong(p, [Genesis(p.crypto), block])
  {
    GenesisActive(p.members, Genesis(p.crypto));
    assert [Genesis(p.crypto), block][..1] == [Genesis(p.crypto)];
  }

  // In the same network a chain is valid that hands all votes to the faulty validator: the bound
  // is asked of the chains that nodes hold, not of every chain that would pass their check.
  lemma TakeoverIsValid(p: Params, f: Key) returns (chain: seq<Block>)
    requires MembersOk(p.members) && |p.members.nodes| >= 4 && f in p.members.nodes && f !in p.honest
    requires forall t :: p.crypto.verifyTransaction(t)
    ensures ChainOk(p.crypto, p.members, chain) && !FewFaulty(p, ActiveAfter(p.members, chain))
  {
    var genesis := [Genesis(p.crypto)];
    var txs := [Transaction([], [], f, Command(VARIE_VALID, 0, [f, f, f, f]), 0)];
    var b := CreateBlock(p.crypto, genesis[0], 0, txs, ProposerAfter(p.members, genesis).key);
    CreatedBlockIsValid(p.crypto, p.members, genesis, 0, txs, ProposerAfter(p.members, genesis).key);
    ChainGrows(p.crypto, p.members, genesis, b);
    chain := genesis + [b];
    assert chain[..1] == genesis && txs[..0] == [];
    assert ActiveAfter(p.members, chain) == ApplyInput(p.members.nodes, ActiveAfter(p.members, genesis), txs[0].input);
    assert (set k | k in [f, f, f, f]) == {f};
    assert {f} - p.honest == {f};
  }
}
