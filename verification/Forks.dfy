/**
 Rounds of any number of validators: the honest ones append a block by their own votes, and
 after one announcement under a wrong number two chains fork although all are honest.
 */
module Forks {
  import opened Wrappers
  import opened Ledger
  import opened VotePools
  import opened Agreement
  import opened Encodings
  import opened Scenarios

  // ---- counting a vote of everybody ----

  // The vote is stored, confirmed or under its own key.
  predicate Has(pool: Pool, v: Vote) {
    var all := VotesOf(pool, v.blockHash);
    v.signature in all.confirmed || (v.signature in all.unconfirmed && all.unconfirmed[v.signature] == v.publicKey)
  }

  function VoteBy(p: Params, topic: Bytes -> Bytes, k: Key, h: Bytes): Vote {
    Vote(h, k, p.crypto.sign(k, topic(h)))
  }

  ghost predicate HasAll(p: Params, topic: Bytes -> Bytes, pool: Pool, ks: seq<Key>, n: nat, h: Bytes)
    requires n <= |ks|
  {
    forall j :: 0 <= j < n ==> Has(pool, VoteBy(p, topic, ks[j], h))
  }

  lemma AddedHas(p: Params, topic: Bytes -> Bytes, pool: Pool, k: Key, l: Key, h: Bytes)
    requires Sound(p.crypto)
    ensures Has(Added(pool, VoteBy(p, topic, k, h)), VoteBy(p, topic, k, h))
    ensures Has(pool, VoteBy(p, topic, l, h)) ==> Has(Added(pool, VoteBy(p, topic, k, h)), VoteBy(p, topic, l, h))
  {
  }

  lemma OneMore(p: Params, topic: Bytes -> Bytes, pool: Pool, ks: seq<Key>, i: nat, h: Bytes)
    requires Sound(p.crypto) && 0 < i <= |ks| && HasAll(p, topic, pool, ks, i - 1, h)
    ensures HasAll(p, topic, Added(pool, VoteBy(p, topic, ks[i - 1], h)), ks, i, h)
  {
    hide Sound, Has, Added;
    forall j | 0 <= j < i
      ensures Has(Added(pool, VoteBy(p, topic, ks[i - 1], h)), VoteBy(p, topic, ks[j], h))
    {
      AddedHas(p, topic, pool, ks[i - 1], ks[j], h);
    }
  }

  function Signatures(p: Params, topic: Bytes -> Bytes, ks: seq<Key>, h: Bytes): set<Bytes> {
    set j | 0 <= j < |ks| :: VoteBy(p, topic, ks[j], h).signature
  }

  lemma {:induction false} AllSignaturesDiffer(p: Params, topic: Bytes -> Bytes, ks: seq<Key>, h: Bytes)
    requires Sound(p.crypto) && Distinct(ks)
    ensures |Signatures(p, topic, ks, h)| == |ks|
  {
    if ks != [] {
      var n := |ks| - 1;
      var front, last := ks[..n], VoteBy(p, topic, ks[n], h).signature;
      AllSignaturesDiffer(p, topic, front, h);
      assert Signatures(p, topic, ks, h) == Signatures(p, topic, front, h) + {last};
      assert last !in Signatures(p, topic, front, h);
    }
  }

  lemma {:induction false} AllDiffer(ks: seq<Key>)
    requires Distinct(ks)
    ensures |set k | k in ks| == |ks|
  {
    if ks != [] {
      var n := |ks| - 1;
      AllDiffer(ks[..n]);
      assert ks == ks[..n] + [ks[n]];
      assert (set k | k in ks) == (set k | k in ks[..n]) + {ks[n]};
    }
  }

  // Once a vote of everybody is stored, the count confirms them all.
  lemma AllCount(p: Params, topic: Bytes -> Bytes, pool: Pool, ks: seq<Key>, h: Bytes, active: set<Key>)
    requires Sound(p.crypto) && Distinct(ks) && (forall k :: k in ks ==> k in active)
    requires HasAll(p, topic, pool, ks, |ks|, h) && |ks| > 0
    ensures ActiveCount(pool, h, active) >= |ks|
    ensures |VotesOf(Counted(pool, h, active), h).confirmed| >= |ks|
  {
    AllSignaturesDiffer(p, topic, ks, h);
    var confirmed := VotesOf(Counted(pool, h, active), h).confirmed;
    forall s | s in Signatures(p, topic, ks, h)
      ensures s in confirmed
    {
      var j :| 0 <= j < |ks| && s == VoteBy(p, topic, ks[j], h).signature;
      assert Has(pool, VoteBy(p, topic, ks[j], h));
    }
    Smaller(Signatures(p, topic, ks, h), confirmed.Keys);
    assert |confirmed.Keys| == |confirmed|;
  }

  // More than two thirds of the active validators.
  predicate Enough(ks: seq<Key>, active: set<Key>) {
    (forall k :: k in ks ==> k in active) && 3 * |ks| > 2 * |active|
  }

  // ---- one node hears everybody listed ----

  // Only the stored votes of n have changed.
  ghost predicate OnlyVotes(s: Net, n: Key, s': Net) {
    && n in s.nodes && n in s'.nodes && s'.prepared == s.prepared && s'.committed == s.committed
    && s'.nodes == s.nodes[n := s'.nodes[n]]
    && s'.nodes[n] == s.nodes[n].(prepares := s'.nodes[n].prepares, commits := s'.nodes[n].commits)
  }

  ghost predicate AllSigned(signed: set<(Key, Bytes)>, ks: seq<Key>, h: Bytes) {
    forall j :: 0 <= j < |ks| ==> (ks[j], h) in signed
  }

  lemma {:induction false} HearsPrepares(p: Params, w: nat, s: Net, n: Key, ks: seq<Key>, i: nat, h: Bytes)
      returns (s': Net)
    requires MembersOk(p.members) && Sound(p.crypto) && Reached(p, w, s) && n in s.nodes && i <= |ks|
    requires AllSigned(s.prepared, ks, h) && Has(s.nodes[n].prepares, PrepareVote(p, n, h))
    ensures Reached(p, w, s') && OnlyVotes(s, n, s') && s'.nodes[n].commits == s.nodes[n].commits
    ensures HasAll(p, p.prepareTopic, s'.nodes[n].prepares, ks, i, h) && Has(s'.nodes[n].prepares, PrepareVote(p, n, h))
  {
    hide Reached, Sound, Has, Added;
    if i == 0 {
      s' := s;
    } else {
      var mid := HearsPrepares(p, w, s, n, ks, i - 1, h);
      var k := ks[i - 1];
      if k == n {
        s' := mid;
        assert PrepareVote(p, n, h) == VoteBy(p, p.prepareTopic, ks[i - 1], h);
      } else {
        s' := HearsPrepare(p, w, mid, n, k, h);
        AddedHas(p, p.prepareTopic, mid.nodes[n].prepares, k, n, h);
        OneMore(p, p.prepareTopic, mid.nodes[n].prepares, ks, i, h);
      }
    }
  }

  lemma {:induction false} HearsCommits(p: Params, w: nat, s: Net, n: Key, ks: seq<Key>, i: nat, h: Bytes)
      returns (s': Net)
    requires MembersOk(p.members) && Sound(p.crypto) && Reached(p, w, s) && n in s.nodes && i <= |ks|
    requires AllSigned(s.committed, ks, h) && Has(s.nodes[n].commits, CommitVote(p, n, h))
    ensures Reached(p, w, s') && OnlyVotes(s, n, s') && s'.nodes[n].prepares == s.nodes[n].prepares
    ensures HasAll(p, p.commitTopic, s'.nodes[n].commits, ks, i, h) && Has(s'.nodes[n].commits, CommitVote(p, n, h))
  {
    hide Reached, Sound, Has, Added;
    if i == 0 {
      s' := s;
    } else {
      var mid := HearsCommits(p, w, s, n, ks, i - 1, h);
      var k := ks[i - 1];
      if k == n {
        s' := mid;
        assert CommitVote(p, n, h) == VoteBy(p, p.commitTopic, ks[i - 1], h);
      } else {
        s' := HearsCommit(p, w, mid, n, k, h);
        AddedHas(p, p.commitTopic, mid.nodes[n].commits, k, n, h);
        OneMore(p, p.commitTopic, mid.nodes[n].commits, ks, i, h);
      }
    }
  }

  // ---- a round, node by node ----

  // What a node was at the start of the round for b, and what it is in it.
  predicate InRound(was: Node, b: Block, node: Node) {
    node.chain == was.chain && node.blockPool == was.blockPool[b.hash := b] && node.currentHash == b.hash
  }

  ghost predicate MayTake(p: Params, ks: seq<Key>, node: Node, b: Block)
    requires MembersOk(p.members)
  {
    && node.phase == NewRound && Next(p, node.chain, b) && b.hash !in node.blockPool
    && Enough(ks, Active(p, node))
  }

  predicate AfterEnter(p: Params, n: Key, was: Node, b: Block, node: Node) {
    node.phase == Prepared && InRound(was, b, node) && Has(node.prepares, PrepareVote(p, n, b.hash))
  }

  predicate AfterCommit(p: Params, ks: seq<Key>, n: Key, was: Node, b: Block, node: Node) {
    && node.phase == Committed && InRound(was, b, node) && Has(node.commits, CommitVote(p, n, b.hash))
    && |VotesOf(node.prepares, b.hash).confirmed| >= |ks|
  }

  // The votes by which a block was appended stay confirmed.
  predicate HoldsVotes(ks: seq<Key>, node: Node, h: Bytes) {
    |VotesOf(node.prepares, h).confirmed| >= |ks| && |VotesOf(node.commits, h).confirmed| >= |ks|
  }

  predicate AfterAppend(ks: seq<Key>, was: Node, b: Block, node: Node) {
    && node.phase == NewRound && node.chain == was.chain + [b] && node.blockPool == was.blockPool[b.hash := b]
    && HoldsVotes(ks, node, b.hash)
  }

  // The block is the one its proposer makes on the last block of its own chain.
  predicate ProposedBy(p: Params, node: Node, b: Block, n: Key, now: int) {
    node.chain != [] && b == CreateBlock(p.crypto, node.chain[|node.chain| - 1], now, [], n)
  }

  // The proposer proposes the block, the others receive it; all take it up.
  lemma Enters(p: Params, w: nat, s: Net, ks: seq<Key>, n: Key, b: Block, e: Key, now: int) returns (s': Net)
    requires MembersOk(p.members) && Sound(p.crypto) && Reached(p, w, s) && n in s.nodes
    requires MayTake(p, ks, s.nodes[n], b) && (n == e ==> ProposedBy(p, s.nodes[n], b, n, now))
    ensures Reached(p, w, s') && n in s'.nodes && s'.nodes == s.nodes[n := s'.nodes[n]]
    ensures AfterEnter(p, n, s.nodes[n], b, s'.nodes[n])
    ensures s'.prepared == s.prepared + {(n, b.hash)} && s'.committed == s.committed
  {
    hide Reached, Next, ActiveAfter, Added, Has, Sound, CreateBlock;
    if n == e {
      s' := Proposes(p, w, s, n, now, b);
    } else {
      s' := TakesUp(p, w, s, n, b);
    }
    AddedHas(p, p.prepareTopic, s.nodes[n].prepares, n, n, b.hash);
  }

  lemma HearsAndCommits(p: Params, w: nat, s: Net, ks: seq<Key>, n: Key, was: Node, b: Block) returns (s': Net)
    requires MembersOk(p.members) && Sound(p.crypto) && Reached(p, w, s) && n in s.nodes
    requires Distinct(ks) && ks != [] && AllSigned(s.prepared, ks, b.hash)
    requires AfterEnter(p, n, was, b, s.nodes[n]) && Enough(ks, Active(p, was))
    ensures Reached(p, w, s') && n in s'.nodes && s'.nodes == s.nodes[n := s'.nodes[n]]
    ensures AfterCommit(p, ks, n, was, b, s'.nodes[n])
    ensures s'.prepared == s.prepared && s'.committed == s.committed + {(n, b.hash)}
  {
    hide Reached, ActiveAfter, Added, Has, Sound, ActiveCount, Counted, HasAll, VotesOf;
    var mid := HearsPrepares(p, w, s, n, ks, |ks|, b.hash);
    var node := mid.nodes[n];
    assert Active(p, node) == Active(p, was);
    TwoThirds(|ks|, |Active(p, node)|);
    AllCount(p, p.prepareTopic, node.prepares, ks, b.hash, Active(p, node));
    s' := Commits(p, w, mid, n);
    AddedHas(p, p.commitTopic, node.commits, n, n, b.hash);
  }

  lemma HearsAndAppends(p: Params, w: nat, s: Net, ks: seq<Key>, n: Key, was: Node, b: Block) returns (s': Net)
    requires MembersOk(p.members) && Sound(p.crypto) && Reached(p, w, s) && n in s.nodes
    requires Distinct(ks) && ks != [] && AllSigned(s.committed, ks, b.hash)
    requires AfterCommit(p, ks, n, was, b, s.nodes[n]) && Enough(ks, Active(p, was))
    ensures Reached(p, w, s') && n in s'.nodes && s'.nodes == s.nodes[n := s'.nodes[n]]
    ensures AfterAppend(ks, was, b, s'.nodes[n])
    ensures s'.prepared == s.prepared && s'.committed == s.committed
  {
    hide Reached, ActiveAfter, Added, Has, Sound, ActiveCount, Counted, HasAll, VotesOf;
    var mid := HearsCommits(p, w, s, n, ks, |ks|, b.hash);
    var node := mid.nodes[n];
    assert Active(p, node) == Active(p, was);
    TwoThirds(|ks|, |Active(p, node)|);
    AllCount(p, p.commitTopic, node.commits, ks, b.hash, Active(p, node));
    s' := Appends(p, w, mid, n);
  }

  // ---- a round of everybody ----

  ghost predicate AreNodes(s: Net, ks: seq<Key>) {
    forall j :: 0 <= j < |ks| ==> ks[j] in s.nodes
  }

  // All may take up the block, and one of them proposes it.
  ghost predicate RoundReady(p: Params, w: nat, s: Net, ks: seq<Key>, b: Block, e: Key, now: int)
    requires MembersOk(p.members)
  {
    && Reached(p, w, s) && AreNodes(s, ks) && Distinct(ks) && ks != []
    && forall j :: 0 <= j < |ks| ==>
         MayTake(p, ks, s.nodes[ks[j]], b) && (ks[j] == e ==> ProposedBy(p, s.nodes[ks[j]], b, e, now))
  }

  // No other keys than these have signed anything since s0.
  ghost predicate OnlyTheySigned(s0: Net, s: Net, ks: seq<Key>) {
    && (forall v :: v in s.prepared ==> v in s0.prepared || v.0 in ks)
    && (forall v :: v in s.committed ==> v in s0.committed || v.0 in ks)
  }

  ghost predicate EnteredUpTo(p: Params, s0: Net, s: Net, ks: seq<Key>, i: nat, b: Block)
    requires AreNodes(s0, ks)
  {
    && AreNodes(s, ks) && OnlyTheySigned(s0, s, ks)
    && forall j :: 0 <= j < |ks| ==>
         if j < i then AfterEnter(p, ks[j], s0.nodes[ks[j]], b, s.nodes[ks[j]]) && (ks[j], b.hash) in s.prepared
         else s.nodes[ks[j]] == s0.nodes[ks[j]]
  }

  ghost predicate CommittedUpTo(p: Params, s0: Net, s: Net, ks: seq<Key>, i: nat, b: Block)
    requires AreNodes(s0, ks)
  {
    && AreNodes(s, ks) && AllSigned(s.prepared, ks, b.hash) && OnlyTheySigned(s0, s, ks)
    && forall j :: 0 <= j < |ks| ==>
         if j < i then AfterCommit(p, ks, ks[j], s0.nodes[ks[j]], b, s.nodes[ks[j]]) && (ks[j], b.hash) in s.committed
         else AfterEnter(p, ks[j], s0.nodes[ks[j]], b, s.nodes[ks[j]])
  }

  ghost predicate AppendedUpTo(p: Params, s0: Net, s: Net, ks: seq<Key>, i: nat, b: Block)
    requires AreNodes(s0, ks)
  {
    && AreNodes(s, ks) && AllSigned(s.committed, ks, b.hash) && OnlyTheySigned(s0, s, ks)
    && forall j :: 0 <= j < |ks| ==>
         if j < i then AfterAppend(ks, s0.nodes[ks[j]], b, s.nodes[ks[j]])
         else AfterCommit(p, ks, ks[j], s0.nodes[ks[j]], b, s.nodes[ks[j]])
  }

  lemma {:induction false} AllEnter(p: Params, w: nat, s0: Net, ks: seq<Key>, i: nat, b: Block, e: Key, now: int)
      returns (s: Net)
    requires MembersOk(p.members) && Sound(p.crypto) && RoundReady(p, w, s0, ks, b, e, now) && i <= |ks|
    ensures Reached(p, w, s) && EnteredUpTo(p, s0, s, ks, i, b)
  {
    hide Reached, Sound, MayTake, AfterEnter, ProposedBy;
    if i == 0 {
      s := s0;
    } else {
      var mid := AllEnter(p, w, s0, ks, i - 1, b, e, now);
      s := Enters(p, w, mid, ks, ks[i - 1], b, e, now);
    }
  }

  lemma {:induction false} AllCommit(p: Params, w: nat, s0: Net, ks: seq<Key>, i: nat, b: Block, e: Key, now: int)
      returns (s: Net)
    requires MembersOk(p.members) && Sound(p.crypto) && RoundReady(p, w, s0, ks, b, e, now) && i <= |ks|
    ensures Reached(p, w, s) && CommittedUpTo(p, s0, s, ks, i, b)
  {
    hide Reached, Sound, Next, AfterEnter, AfterCommit, ProposedBy, Active;
    if i == 0 {
      s := AllEnter(p, w, s0, ks, |ks|, b, e, now);
    } else {
      var mid := AllCommit(p, w, s0, ks, i - 1, b, e, now);
      s := HearsAndCommits(p, w, mid, ks, ks[i - 1], s0.nodes[ks[i - 1]], b);
    }
  }

  lemma {:induction false} AllAppend(p: Params, w: nat, s0: Net, ks: seq<Key>, i: nat, b: Block, e: Key, now: int)
      returns (s: Net)
    requires MembersOk(p.members) && Sound(p.crypto) && RoundReady(p, w, s0, ks, b, e, now) && i <= |ks|
    ensures Reached(p, w, s) && AppendedUpTo(p, s0, s, ks, i, b)
  {
    hide Reached, Sound, Next, AfterCommit, AfterAppend, ProposedBy, Active;
    if i == 0 {
      s := AllCommit(p, w, s0, ks, |ks|, b, e, now);
    } else {
      var mid := AllAppend(p, w, s0, ks, i - 1, b, e, now);
      s := HearsAndAppends(p, w, mid, ks, ks[i - 1], s0.nodes[ks[i - 1]], b);
    }
  }

  lemma {:induction false} Listed(keys: set<Key>) returns (ks: seq<Key>)
    ensures Distinct(ks) && |ks| == |keys| && forall k :: k in ks <==> k in keys
  {
    if keys == {} {
      ks := [];
    } else {
      var k :| k in keys;
      var rest := Listed(keys - {k});
      ks := rest + [k];
    }
  }

  // The honest among the active validators append a block without a vote of anybody else, as
  // long as fewer than a third of all are faulty.
  lemma HonestAppend(p: Params, w: nat, s0: Net, active: set<Key>, b: Block, e: Key, now: int) returns (s: Net)
    requires MembersOk(p.members) && Sound(p.crypto) && Reached(p, w, s0) && FewFaulty(p, active)
    requires forall k :: k in active * p.honest ==>
               && k in s0.nodes && s0.nodes[k].phase == NewRound && Active(p, s0.nodes[k]) == active
               && Next(p, s0.nodes[k].chain, b) && b.hash !in s0.nodes[k].blockPool
               && (k == e ==> ProposedBy(p, s0.nodes[k], b, e, now))
    ensures Reached(p, w, s)
    ensures forall v :: v in s.prepared - s0.prepared || v in s.committed - s0.committed ==> v.0 in active * p.honest
    ensures forall k :: k in active * p.honest ==>
              && k in s.nodes && s.nodes[k].phase == NewRound
              && s.nodes[k].chain == s0.nodes[k].chain + [b]
  {
    hide Reached, Next, ProposedBy, FewFaulty, ActiveAfter, HoldsVotes;
    var ks := Listed(active * p.honest);
    HonestSufficeIff(p, active);
    TwoThirds(|ks|, |active|);
    s := AllAppend(p, w, s0, ks, |ks|, b, e, now);
    forall k | k in active * p.honest
      ensures && k in s.nodes && s.nodes[k].phase == NewRound && s.nodes[k].chain == s0.nodes[k].chain + [b]
    {
      assert k in ks;
      var j :| 0 <= j < |ks| && ks[j] == k;
      assert AfterAppend(ks, s0.nodes[ks[j]], b, s.nodes[ks[j]]);
    }
  }

  // ---- the announcement ----

  // Announced under the next number, the last block of a node is appended a second time.
  lemma AppendsAgain(p: Params, w: nat, s: Net, ks: seq<Key>, n: Key, b: Block) returns (s': Net)
    requires MembersOk(p.members) && Reached(p, w, s) && n in s.nodes && s.nodes[n].phase == NewRound
    requires s.nodes[n].chain != [] && s.nodes[n].chain[|s.nodes[n].chain| - 1] == b
    requires b.hash in s.nodes[n].blockPool && s.nodes[n].blockPool[b.hash] == b
    requires Enough(ks, Active(p, s.nodes[n]))
    requires HoldsVotes(ks, s.nodes[n], b.hash)
    ensures Reached(p, w + 1, s') && n in s'.nodes && s'.nodes == s.nodes[n := s'.nodes[n]]
    ensures s'.nodes[n].phase == NewRound && s'.nodes[n].chain == s.nodes[n].chain + [b]
    ensures s'.nodes[n].blockPool == s.nodes[n].blockPool
  {
    hide Reached, ActiveAfter, Added, ActiveCount, Counted, VotesOf;
    var node, again := s.nodes[n], b.(sequenceNb := b.sequenceNb + 1);
    TwoThirds(|ks|, |Active(p, node)|);
    OldBlockIsAppendedAgain(p, n, node, again);
    var s1 := Put(s, n, Entered(p, n, node, b.hash)).(prepared := s.prepared + {(n, b.hash)});
    ReachNext(p, w, s, EnterFromMessage(n, again), s1);
    OldVotesCount(node.prepares, PrepareVote(p, n, b.hash), Active(p, node));
    var s2 := Commits(p, w + 1, s1, n);
    OldVotesCount(node.commits, CommitVote(p, n, b.hash), Active(p, node));
    s' := Appends(p, w + 1, s2, n);
  }

  // ---- the fork ----

  lemma EmptyBlocksKeepActive(m: Members, chain: seq<Block>)
    requires forall i :: 0 <= i < |chain| ==> chain[i].transactions == []
    ensures ActiveAfter(m, chain) == m.initial
  {
    if chain != [] {
      EmptyBlocksKeepActive(m, chain[..|chain| - 1]);
    }
  }

  // Two blocks such that the second fits on top of one as well as of two copies of the first.
  ghost predicate ForkReady(p: Params, ks: seq<Key>, b: Block, c: Block, d: Key, e: Key)
    requires MembersOk(p.members)
  {
    var genesis := Genesis(p.crypto);
    && |ks| >= 2 && Distinct(ks) && p.honest == (set k | k in ks) && p.members.initial == p.honest
    && b.transactions == [] && c.transactions == [] && b.hash != c.hash && b != c
    && b == CreateBlock(p.crypto, genesis, 0, [], d) && c == CreateBlock(p.crypto, b, 1, [], e)
    && Next(p, [genesis], b) && Next(p, [genesis, b], c) && Next(p, [genesis, b, b], c)
  }

  lemma ForkBlocks(p: Params, ks: seq<Key>) returns (b: Block, c: Block, d: Key, e: Key)
    requires |ks| >= 2 && Distinct(ks) && p == NetworkOf(ks, set k | k in ks, set k | k in ks)
    requires MembersOk(p.members) && ParamsOk(p)
    ensures ForkReady(p, ks, b, c, d, e)
  {
    var genesis := Genesis(p.crypto);
    d := ProposerAfter(p.members, [genesis]).key;
    b := CreateBlock(p.crypto, genesis, 0, [], d);
    e := ProposerAfter(p.members, [genesis, b]).key;
    c := CreateBlock(p.crypto, b, 1, [], e);
    assert b.hash != c.hash by {
      hide EncodedCrypto;
      assert p.crypto.hashBlock(0, genesis.hash, []) != p.crypto.hashBlock(1, b.hash, []);
    }
    hide EncodedCrypto, Genesis, Sound, Elect;
    NoTransactions(p.crypto);
    SameProposer(p.members, genesis, b);
    CreatedBlockIsValid(p.crypto, p.members, [genesis], 0, [], d);
    CreatedBlockIsValid(p.crypto, p.members, [genesis, b], 1, [], e);
    CreatedBlockIsValid(p.crypto, p.members, [genesis, b, b], 1, [], e);
  }

  lemma SameProposer(m: Members, genesis: Block, b: Block)
    requires MembersOk(m) && genesis.transactions == [] && b.transactions == []
    ensures ProposerAfter(m, [genesis, b]) == ProposerAfter(m, [genesis, b, b])
  {
    hide Elect;
    EmptyBlocksKeepActive(m, [genesis, b]);
    EmptyBlocksKeepActive(m, [genesis, b, b]);
  }

  lemma AllMayTake(p: Params, w: nat, s: Net, ks: seq<Key>, b: Block, e: Key, now: int)
    requires MembersOk(p.members) && Reached(p, w, s) && AreNodes(s, ks) && Distinct(ks) && ks != []
    requires p.members.initial == set k | k in ks
    requires forall j :: 0 <= j < |ks| ==>
               var node := s.nodes[ks[j]];
               && node.phase == NewRound && Next(p, node.chain, b) && b.hash !in node.blockPool
               && (forall i :: 0 <= i < |node.chain| ==> node.chain[i].transactions == [])
               && ProposedBy(p, node, b, e, now)
    ensures RoundReady(p, w, s, ks, b, e, now)
  {
    hide Reached, Next, ProposedBy, ActiveAfter;
    AllDiffer(ks);
    forall j | 0 <= j < |ks|
      ensures MayTake(p, ks, s.nodes[ks[j]], b)
    {
      EmptyBlocksKeepActive(p.members, s.nodes[ks[j]].chain);
    }
  }

  // What every node holds between the two rounds: the first one a block more.
  ghost predicate Between(p: Params, s: Net, ks: seq<Key>, b: Block) {
    && AreNodes(s, ks)
    && forall j :: 0 <= j < |ks| ==>
         var node := s.nodes[ks[j]];
         && node.phase == NewRound && node.blockPool == map[b.hash := b]
         && node.chain == if j == 0 then [Genesis(p.crypto), b, b] else [Genesis(p.crypto), b]
  }

  lemma FirstRound(p: Params, ks: seq<Key>, b: Block, c: Block, d: Key, e: Key) returns (s: Net)
    requires MembersOk(p.members) && Sound(p.crypto) && ForkReady(p, ks, b, c, d, e)
    ensures Reached(p, 0, s) && AreNodes(s, ks)
    ensures forall j :: 0 <= j < |ks| ==>
              var node := s.nodes[ks[j]];
              && node.phase == NewRound && node.blockPool == map[b.hash := b]
              && node.chain == [Genesis(p.crypto), b] && HoldsVotes(ks, node, b.hash)
  {
    hide Reached, Sound, Next, HoldsVotes, Genesis, CreateBlock, RoundReady;
    var s0 := StartOf(p);
    NoTransactions(p.crypto);
    StartReached(p);
    AllMayTake(p, 0, s0, ks, b, d, 0);
    s := AllAppend(p, 0, s0, ks, |ks|, b, d, 0);
  }

  lemma StartReached(p: Params)
    requires MembersOk(p.members)
    ensures Reached(p, 0, StartOf(p))
  {
    hide Reached;
    ReachStart(p, StartOf(p));
  }

  lemma WrongAnnouncement(p: Params, ks: seq<Key>, b: Block, c: Block, d: Key, e: Key) returns (s: Net)
    requires MembersOk(p.members) && Sound(p.crypto) && ForkReady(p, ks, b, c, d, e)
    ensures Reached(p, 1, s) && Between(p, s, ks, b)
  {
    hide Reached, Sound, Next, HoldsVotes, Genesis, CreateBlock, ActiveAfter;
    var s1 := FirstRound(p, ks, b, c, d, e);
    NoTransactions(p.crypto);
    EmptyBlocksKeepActive(p.members, s1.nodes[ks[0]].chain);
    AllDiffer(ks);
    s := AppendsAgain(p, 0, s1, ks, ks[0], b);
    assert s.nodes[ks[0]].chain == [Genesis(p.crypto), b, b];
  }

  lemma SecondRound(p: Params, s: Net, ks: seq<Key>, b: Block, c: Block, d: Key, e: Key) returns (s': Net)
    requires MembersOk(p.members) && Sound(p.crypto) && ForkReady(p, ks, b, c, d, e)
    requires Reached(p, 1, s) && Between(p, s, ks, b)
    ensures Reached(p, 1, s') && ks[0] in s'.nodes && ks[1] in s'.nodes
    ensures s'.nodes[ks[0]].chain == [Genesis(p.crypto), b, b, c] && s'.nodes[ks[1]].chain == [Genesis(p.crypto), b, c]
  {
    hide Reached, Sound, Next, HoldsVotes, Genesis, CreateBlock, RoundReady;
    NoTransactions(p.crypto);
    AllMayTake(p, 1, s, ks, c, e, 1);
    s' := AllAppend(p, 1, s, ks, |ks|, c, e, 1);
  }

  lemma NotAChain(p: Params, ks: seq<Key>, b: Block, c: Block, d: Key, e: Key)
    requires MembersOk(p.members) && ForkReady(p, ks, b, c, d, e)
    ensures !ChainOk(p.crypto, p.members, [Genesis(p.crypto), b, b, c])
  {
    var chain := [Genesis(p.crypto), b, b, c];
    if ChainOk(p.crypto, p.members, chain) {
      hide ChainOk;
      ChainShape(p.crypto, p.members, chain, 1);
      ChainShape(p.crypto, p.members, chain, 2);
      assert false;
    }
  }

  lemma AllHonest(p: Params, chain: seq<Block>)
    requires MembersOk(p.members) && forall k :: k in p.members.nodes ==> k in p.honest
    ensures FewFaultyAlong(p, chain)
  {
    hide ActiveAfter;
    forall k | 1 <= k < |chain|
      ensures FewFaulty(p, ActiveAfter(p.members, chain[..k]))
    {
      ActiveStaysKnown(p.members, chain[..k]);
      assert ActiveAfter(p.members, chain[..k]) - p.honest == {};
    }
  }

  lemma KeysAreMembers(ks: seq<Key>)
    requires Distinct(ks) && ks != []
    ensures MembersOk(Members(ks, set k | k in ks))
  {
    var all := set k | k in ks;
    assert ks[0] in ks && ks[0] in all;
  }

  // Any number of validators from two on, all of them honest, and no faulty vote: one
  // announcement under a number that the block is not pooled under, and two chains fork.
  lemma AnnouncementForks(ks: seq<Key>) returns (p: Params, run: seq<Net>, events: seq<Event>)
    requires |ks| >= 2 && Distinct(ks)
    ensures p.members == Members(ks, set k | k in ks) && p.honest == set k | k in ks
    ensures MembersOk(p.members) && ParamsOk(p) && IsRun(p, run, events) && Wrong(run, events) == 1
    ensures var last := run[|run| - 1];
      && ks[0] in last.nodes && ks[1] in last.nodes
      && var a, b := last.nodes[ks[0]].chain, last.nodes[ks[1]].chain;
      && FewFaultyAlong(p, a) && FewFaultyAlong(p, b)
      && !ChainOk(p.crypto, p.members, a) && !(a <= b) && !(b <= a)
  {
    p := NetworkOf(ks, set k | k in ks, set k | k in ks);
    NetworkIsOk(ks, set k | k in ks, set k | k in ks);
    KeysAreMembers(ks);
    var b, c, d, e := ForkBlocks(p, ks);
    assert Sound(p.crypto) && forall k :: k in p.members.nodes ==> k in p.honest;
    assert |ks| >= 2 && b != c;
    hide ParamsOk, EncodedCrypto, ForkReady, ChainOk, Genesis, FewFaultyAlong, IsRun, MembersOk, Between, Sound;
    var mid := WrongAnnouncement(p, ks, b, c, d, e);
    var s := SecondRound(p, mid, ks, b, c, d, e);
    NotAChain(p, ks, b, c, d, e);
    AllHonest(p, s.nodes[ks[0]].chain);
    AllHonest(p, s.nodes[ks[1]].chain);
    run, events :| Leads(p, 1, run, events, s);
    Diverge(Genesis(p.crypto), b, c);
  }

  lemma Diverge(g: Block, b: Block, c: Block)
    requires b != c
    ensures !([g, b, b, c] <= [g, b, c]) && !([g, b, c] <= [g, b, b, c])
  {
    assert [g, b, b, c][2] == b && [g, b, c][2] == c;
  }
}
