/**
 Agreement among honest replicas that run the consensus states NewRound, Prepared and
 Committed over their block list, block pool and vote pools.
 */
module Agreement {
  import opened Wrappers
  import opened Ledger
  import opened VotePools

  datatype Phase = NewRound | Prepared | Committed

  datatype Node = Node(phase: Phase, currentHash: Bytes, chain: seq<Block>,
                       blockPool: map<Bytes, Block>, prepares: Pool, commits: Pool)

  // prepared and committed hold every (signer, block hash) for which a vote was ever signed.
  datatype Net = Net(nodes: map<Key, Node>, prepared: set<(Key, Bytes)>, committed: set<(Key, Bytes)>)

  // prepareTopic and commitTopic turn a block hash into the bytes that are signed: the hash
  // followed by the salt of the message type.
  datatype Params = Params(crypto: Crypto, members: Members, honest: set<Key>,
                           prepareTopic: Bytes -> Bytes, commitTopic: Bytes -> Bytes)

  datatype Event =
    | Propose(n: Key, now: int, txs: seq<Transaction>)
    | ReceivePrePrepare(n: Key, b: Block)
    | ReceivePrepare(n: Key, v: Vote)
    | ReceiveCommit(n: Key, v: Vote)
    | EnterFromPool(n: Key, b: Block)
    | EnterFromMessage(n: Key, b: Block)
    | CountPrepares(n: Key)
    | CountCommits(n: Key, ramOpt: bool)
    | ForgetVotes(n: Key, hash: Bytes)
    | FaultyPrepare(k: Key, hash: Bytes)
    | FaultyCommit(k: Key, hash: Bytes)

  function MinApprovals(n: nat): nat {
    n * 2 / 3 + 1
  }

  // More than two thirds, no more and no less.
  lemma TwoThirds(k: nat, n: nat)
    ensures k >= MinApprovals(n) <==> 3 * k > 2 * n
  {
  }

  // ---- assumptions ----

  ghost predicate OneTopicPerHash(topic: Bytes -> Bytes) {
    forall g, h :: topic(g) == topic(h) ==> g == h
  }

  ghost predicate ParamsOk(p: Params) {
    Sound(p.crypto) && OneTopicPerHash(p.prepareTopic) && OneTopicPerHash(p.commitTopic)
  }

  ghost predicate FewFaulty(p: Params, active: set<Key>) {
    3 * |active - p.honest| < |active|
  }

  // Fewer than a third of the validators active before each block of a chain are faulty.
  ghost predicate FewFaultyAlong(p: Params, chain: seq<Block>) {
    forall k :: 1 <= k < |chain| ==> FewFaulty(p, ActiveAfter(p.members, chain[..k]))
  }

  // ---- one node ----

  function Active(p: Params, node: Node): set<Key> {
    ActiveAfter(p.members, node.chain)
  }

  predicate Next(p: Params, chain: seq<Block>, b: Block)
    requires MembersOk(p.members)
  {
    chain != [] && ValidNext(p.crypto, p.members, chain, b)
  }

  function PrepareVote(p: Params, k: Key, hash: Bytes): Vote {
    Vote(hash, k, p.crypto.sign(k, p.prepareTopic(hash)))
  }

  function CommitVote(p: Params, k: Key, hash: Bytes): Vote {
    Vote(hash, k, p.crypto.sign(k, p.commitTopic(hash)))
  }

  // NewRound.update: take up a block and prepare it.
  function Entered(p: Params, n: Key, node: Node, hash: Bytes): Node {
    node.(phase := Prepared, currentHash := hash, prepares := Added(node.prepares, PrepareVote(p, n, hash)))
  }

  // Prepared: count; with enough prepares, commit.
  function PreparesCounted(p: Params, n: Key, node: Node): Node {
    var counted := node.(prepares := Counted(node.prepares, node.currentHash, Active(p, node)));
    if ActiveCount(node.prepares, node.currentHash, Active(p, node)) >= MinApprovals(|Active(p, node)|)
    then counted.(phase := Committed, commits := Added(node.commits, CommitVote(p, n, node.currentHash)))
    else counted
  }

  predicate CommitsReached(p: Params, node: Node) {
    && ActiveCount(node.commits, node.currentHash, Active(p, node)) >= MinApprovals(|Active(p, node)|)
    && node.currentHash in node.blockPool
  }

  // Committed: count; with enough commits, append the pooled block.
  function CommitsCounted(p: Params, node: Node, ramOpt: bool): Node {
    var counted := node.(commits := Counted(node.commits, node.currentHash, Active(p, node)));
    if CommitsReached(p, node)
    then counted.(phase := NewRound,
                  chain := node.chain + [node.blockPool[node.currentHash]],
                  blockPool := if ramOpt then node.blockPool - {node.currentHash} else node.blockPool)
    else counted
  }

  // ---- the network ----

  ghost predicate Initial(p: Params, s: Net) {
    && s.prepared == {} && s.committed == {}
    && s.nodes.Keys == p.honest
    && forall n :: n in s.nodes ==> s.nodes[n] == Node(NewRound, [], [Genesis(p.crypto)], map[], map[], map[])
  }

  function Put(s: Net, n: Key, node: Node): Net {
    s.(nodes := s.nodes[n := node])
  }

  // The node an event happens at; faulty votes happen nowhere.
  function At(e: Event): Option<Key> {
    match e
    case FaultyPrepare(k, hash) => None
    case FaultyCommit(k, hash) => None
    case _ => Some(e.n)
  }

  ghost predicate Step(p: Params, s: Net, e: Event, s': Net)
    requires MembersOk(p.members)
  {
    match e
    case FaultyPrepare(k, hash) => k !in p.honest && s' == s.(prepared := s.prepared + {(k, hash)})
    case FaultyCommit(k, hash) => k !in p.honest && s' == s.(committed := s.committed + {(k, hash)})
    case _ => e.n in s.nodes && NodeStep(p, s, e, s.nodes[e.n], s')
  }

  ghost predicate NodeStep(p: Params, s: Net, e: Event, node: Node, s': Net)
    requires MembersOk(p.members) && At(e).Some?
  {
    match e
    case Propose(n, now, txs) =>
      // the elected proposer builds a block of verified transactions and pools it
      && node.phase == NewRound && node.chain != [] && n == ProposerAfter(p.members, node.chain).key
      && (forall i :: 0 <= i < |txs| ==> p.crypto.verifyTransaction(txs[i]))
      && var b := CreateBlock(p.crypto, node.chain[|node.chain| - 1], now, txs, n);
         s' == Put(s, n, node.(blockPool := node.blockPool[b.hash := b]))
    case ReceivePrePrepare(n, b) =>
      && Next(p, node.chain, b) && b.hash !in node.blockPool
      && s' == Put(s, n, node.(blockPool := node.blockPool[b.hash := b]))
    case ReceivePrepare(n, v) =>
      && (v.publicKey, v.blockHash) in s.prepared && v == PrepareVote(p, v.publicKey, v.blockHash)
      && s' == Put(s, n, node.(prepares := Added(node.prepares, v)))
    case ReceiveCommit(n, v) =>
      && (v.publicKey, v.blockHash) in s.committed && v == CommitVote(p, v.publicKey, v.blockHash)
      && s' == Put(s, n, node.(commits := Added(node.commits, v)))
    case EnterFromPool(n, b) =>
      // the pool search: a pooled block that passes IsValidNewBlock
      && node.phase == NewRound && b.hash in node.blockPool && node.blockPool[b.hash] == b && Next(p, node.chain, b)
      && s' == Put(s, n, Entered(p, n, node, b.hash)).(prepared := s.prepared + {(n, b.hash)})
    case EnterFromMessage(n, b) =>
      // the announced block: its hash is pooled and its number is the next one
      && node.phase == NewRound && MessageGuard(node, b)
      && s' == Put(s, n, Entered(p, n, node, b.hash)).(prepared := s.prepared + {(n, b.hash)})
    case CountPrepares(n) =>
      && node.phase == Prepared
      && var node' := PreparesCounted(p, n, node);
         s' == Put(s, n, node').(committed := if node'.phase == Committed
                                              then s.committed + {(n, node.currentHash)} else s.committed)
    case CountCommits(n, ramOpt) =>
      && node.phase == Committed
      && s' == Put(s, n, CommitsCounted(p, node, ramOpt))
    case ForgetVotes(n, hash) =>
      && s' == Put(s, n, node.(prepares := node.prepares - {hash}, commits := node.commits - {hash}))
  }

  // The guard of NewRound.giveMeNext on the message it is woken with.
  predicate MessageGuard(node: Node, b: Block) {
    node.chain != [] && b.hash in node.blockPool && b.sequenceNb == node.chain[|node.chain| - 1].sequenceNb + 1
  }

  ghost predicate IsRun(p: Params, run: seq<Net>, events: seq<Event>)
    requires MembersOk(p.members)
  {
    && |run| == |events| + 1
    && Initial(p, run[0])
    && forall i :: 0 <= i < |events| ==> Step(p, run[i], events[i], run[i + 1])
  }

  // The announcement carries the number its hash is pooled under.
  predicate AsPooled(s: Net, e: Event) {
    e.EnterFromMessage? && e.n in s.nodes && e.b.hash in s.nodes[e.n].blockPool ==>
      s.nodes[e.n].blockPool[e.b.hash].sequenceNb == e.b.sequenceNb
  }

  ghost predicate AnnouncedAsPooled(run: seq<Net>, events: seq<Event>, n: nat) {
    forall i :: 0 <= i < n && i < |events| && i < |run| ==> AsPooled(run[i], events[i])
  }

  // ---- the invariant ----

  // Some block with this hash is valid right after the first i blocks of chain.
  ghost predicate Home(p: Params, chain: seq<Block>, hash: Bytes, i: nat)
    requires MembersOk(p.members)
  {
    0 < i <= |chain| && exists b: Block :: b.hash == hash && Next(p, chain[..i], b)
  }

  // Every pooled block was valid when it was pooled.
  ghost predicate PoolOk(p: Params, chain: seq<Block>, pool: map<Bytes, Block>)
    requires MembersOk(p.members)
  {
    forall h :: h in pool ==> Pooled(p, chain, h, pool[h])
  }

  ghost predicate Pooled(p: Params, chain: seq<Block>, h: Bytes, b: Block)
    requires MembersOk(p.members)
  {
    b.hash == h && exists i :: 0 < i <= |chain| && Next(p, chain[..i], b)
  }

  // Between taking up a block and appending it, the block is valid on top of the chain.
  ghost predicate RoundOk(p: Params, node: Node)
    requires MembersOk(p.members)
  {
    node.phase != NewRound ==>
      && Home(p, node.chain, node.currentHash, |node.chain|)
      && (node.currentHash in node.blockPool ==> Next(p, node.chain, node.blockPool[node.currentHash]))
  }

  // Every stored vote was signed by its key over its topic; a confirmed one by a validator
  // active where the block belongs.
  ghost predicate BallotsOk(p: Params, topic: Bytes -> Bytes, chain: seq<Block>, pool: Pool, voted: set<(Key, Bytes)>)
    requires MembersOk(p.members)
  {
    forall h :: h in pool ==> VotesOk(p, topic, chain, voted, h, pool[h])
  }

  ghost predicate VotesOk(p: Params, topic: Bytes -> Bytes, chain: seq<Block>, voted: set<(Key, Bytes)>,
          h: Bytes, all: Votes)
    requires MembersOk(p.members)
  {
    && (forall s :: s in all.unconfirmed ==> Signed(p, topic, voted, h, s, all.unconfirmed[s]))
    && (forall s :: s in all.confirmed ==>
          Signed(p, topic, voted, h, s, all.confirmed[s]) && ActiveAtHome(p, chain, h, all.confirmed[s]))
  }

  ghost predicate Signed(p: Params, topic: Bytes -> Bytes, voted: set<(Key, Bytes)>, h: Bytes, s: Bytes, k: Key) {
    (k, h) in voted && s == p.crypto.sign(k, topic(h))
  }

  ghost predicate ActiveAtHome(p: Params, chain: seq<Block>, h: Bytes, k: Key)
    requires MembersOk(p.members)
  {
    exists i: nat :: i <= |chain| && Home(p, chain, h, i) && k in ActiveAfter(p.members, chain[..i])
  }

  ghost predicate IsQuorum(voted: set<(Key, Bytes)>, active: set<Key>, hash: Bytes, q: set<Key>) {
    && q <= active && 3 * |q| > 2 * |active|
    && forall k :: k in q ==> (k, hash) in voted
  }

  // A quorum of the validators active before b committed to it.
  ghost predicate Certified(p: Params, committed: set<(Key, Bytes)>, before: seq<Block>, b: Block) {
    exists q :: IsQuorum(committed, ActiveAfter(p.members, before), b.hash, q)
  }

  ghost predicate AllCertified(p: Params, chain: seq<Block>, committed: set<(Key, Bytes)>) {
    forall i :: 1 <= i < |chain| ==> Certified(p, committed, chain[..i], chain[i])
  }

  // Where an honest commit belongs in its signer's chain: it was appended there, or it is the
  // block the signer is about to append.
  ghost predicate CommitPlaced(p: Params, node: Node, hash: Bytes)
    requires MembersOk(p.members)
  {
    exists i: nat :: Home(p, node.chain, hash, i)
      && (if i < |node.chain| then node.chain[i].hash == hash
          else node.phase == Committed && node.currentHash == hash)
  }

  ghost predicate NodeOk(p: Params, n: Key, node: Node, committed: set<(Key, Bytes)>)
    requires MembersOk(p.members)
  {
    && ChainOk(p.crypto, p.members, node.chain)
    && PoolOk(p, node.chain, node.blockPool)
    && RoundOk(p, node) && BallotsOk(p, p.commitTopic, node.chain, node.commits, committed)
    && AllCertified(p, node.chain, committed)
    && forall h :: (n, h) in committed ==> CommitPlaced(p, node, h)
  }

  ghost predicate Inv(p: Params, s: Net)
    requires MembersOk(p.members)
  {
    && s.nodes.Keys == p.honest
    && forall n :: n in s.nodes ==> NodeOk(p, n, s.nodes[n], s.committed)
  }

  // ---- a block hash has one home ----

  lemma HomeTip(p: Params, chain: seq<Block>, hash: Bytes, i: nat, b: Block, before: seq<Block>)
    requires MembersOk(p.members) && ParamsOk(p) && ChainOk(p.crypto, p.members, chain) && Home(p, chain, hash, i)
    requires ChainOk(p.crypto, p.members, before) && ValidNext(p.crypto, p.members, before, b) && b.hash == hash
    ensures chain[..i] == before
  {
    hide ProposerAfter, ActiveAfter, ChainOk;
    var a: Block :| a.hash == hash && Next(p, chain[..i], a);
    assert VerifyBlock(p.crypto, a) && VerifyBlock(p.crypto, b);
    assert a.lastHash == b.lastHash;
    ChainPrefix(p.crypto, p.members, chain, i);
    TipDeterminesChain(p.crypto, p.members, chain[..i], before);
  }

  lemma HomeUnique(p: Params, chain: seq<Block>, hash: Bytes, i: nat, j: nat)
    requires MembersOk(p.members) && ParamsOk(p) && ChainOk(p.crypto, p.members, chain)
    requires Home(p, chain, hash, i) && Home(p, chain, hash, j)
    ensures i == j
  {
    hide ChainOk, ValidNext;
    var b: Block :| b.hash == hash && Next(p, chain[..j], b);
    ChainPrefix(p.crypto, p.members, chain, j);
    HomeTip(p, chain, hash, i, b, chain[..j]);
    assert |chain[..i]| == |chain[..j]|;
  }

  lemma HomeGrows(p: Params, chain: seq<Block>, more: seq<Block>, hash: Bytes, i: nat)
    requires MembersOk(p.members) && Home(p, chain, hash, i)
    ensures Home(p, chain + more, hash, i)
  {
    assert (chain + more)[..i] == chain[..i];
  }

  // ---- the message branch ----

  // What the guard leaves open: it names a block that is valid on top of the chain exactly if
  // the number in the message is the one the block is pooled under.
  lemma MessageGuardSufficient(p: Params, n: Key, node: Node, committed: set<(Key, Bytes)>, b: Block)
    requires MembersOk(p.members) && ParamsOk(p) && NodeOk(p, n, node, committed) && MessageGuard(node, b)
    ensures Next(p, node.chain, node.blockPool[b.hash]) <==> node.blockPool[b.hash].sequenceNb == b.sequenceNb
  {
    hide ChainOk, Next, BallotsOk, RoundOk, AllCertified, CommitPlaced, ParamsOk, PoolOk;
    var chain, pooled := node.chain, node.blockPool[b.hash];
    var i := PooledAt(p, chain, node.blockPool, b.hash);
    NumbersMeet(p, chain, i, pooled);
  }

  lemma PooledAt(p: Params, chain: seq<Block>, pool: map<Bytes, Block>, hash: Bytes) returns (i: nat)
    requires MembersOk(p.members) && PoolOk(p, chain, pool) && hash in pool
    ensures 0 < i <= |chain| && Next(p, chain[..i], pool[hash])
  {
    hide Next;
    assert Pooled(p, chain, hash, pool[hash]);
    var k :| 0 < k <= |chain| && Next(p, chain[..k], pool[hash]);
    i := k;
  }

  // A block that is valid somewhere in the chain is valid on top of it iff it has the next number.
  lemma NumbersMeet(p: Params, chain: seq<Block>, i: nat, b: Block)
    requires MembersOk(p.members) && ParamsOk(p) && ChainOk(p.crypto, p.members, chain) && 0 < i <= |chain|
    requires Next(p, chain[..i], b)
    ensures Next(p, chain, b) <==> b.sequenceNb == chain[|chain| - 1].sequenceNb + 1
  {
    hide ParamsOk, ChainOk, Next;
    NextNumber(p, chain, i, b);
    ChainShape(p.crypto, p.members, chain, |chain| - 1);
    assert chain[..|chain|] == chain;
    if Next(p, chain, b) {
      NextNumber(p, chain, |chain|, b);
    }
  }

  lemma NextNumber(p: Params, chain: seq<Block>, i: nat, b: Block)
    requires MembersOk(p.members) && ParamsOk(p) && ChainOk(p.crypto, p.members, chain) && 0 < i <= |chain|
    requires Next(p, chain[..i], b)
    ensures b.sequenceNb == i
  {
    hide ChainOk, ProposerAfter;
    ChainShape(p.crypto, p.members, chain, i - 1);
  }

  // Taking up an announced block keeps the node's invariant exactly then.
  lemma EnterKeepsNodeIff(p: Params, n: Key, node: Node, committed: set<(Key, Bytes)>, b: Block)
    requires MembersOk(p.members) && ParamsOk(p) && NodeOk(p, n, node, committed)
    requires node.phase == NewRound && MessageGuard(node, b)
    ensures NodeOk(p, n, Entered(p, n, node, b.hash), committed) <==> node.blockPool[b.hash].sequenceNb == b.sequenceNb
  {
    hide ChainOk, Next, BallotsOk, AllCertified, CommitPlaced, ParamsOk, PoolOk, Home, Added;
    MessageGuardSufficient(p, n, node, committed, b);
    if Next(p, node.chain, node.blockPool[b.hash]) {
      EnterKeepsNode(p, n, node, committed, b.hash);
    }
  }

  // A block of an earlier height that is still pooled, announced under the next number, passes
  // the guard although it is not valid on top of the chain.
  lemma MessageGuardExample(p: Params, n: Key, node: Node, committed: set<(Key, Bytes)>, i: nat)
    requires MembersOk(p.members) && ParamsOk(p) && NodeOk(p, n, node, committed)
    requires 0 < i < |node.chain| && node.chain[i].hash in node.blockPool
    requires node.blockPool[node.chain[i].hash] == node.chain[i]
    ensures var b := node.chain[i].(sequenceNb := |node.chain|);
      MessageGuard(node, b) && !Next(p, node.chain, node.blockPool[b.hash])
  {
    hide ChainOk, Next, RoundOk, BallotsOk, Certified, CommitPlaced, PoolOk;
    var chain := node.chain;
    ChainShape(p.crypto, p.members, chain, i);
    ChainShape(p.crypto, p.members, chain, |chain| - 1);
    if Next(p, chain, chain[i]) {
      assert chain[..|chain|] == chain;
      NextNumber(p, chain, |chain|, chain[i]);
    }
  }

  // With the votes still stored from which it was appended, the block is taken up, committed to
  // and appended once more, no vote being received in between.
  lemma OldBlockIsAppendedAgain(p: Params, n: Key, node: Node, b: Block)
    requires node.phase == NewRound && MessageGuard(node, b)
    requires |VotesOf(node.prepares, b.hash).confirmed| >= MinApprovals(|Active(p, node)|)
    requires |VotesOf(node.commits, b.hash).confirmed| >= MinApprovals(|Active(p, node)|)
    ensures PreparesCounted(p, n, Entered(p, n, node, b.hash)).phase == Committed
    ensures CommitsCounted(p, PreparesCounted(p, n, Entered(p, n, node, b.hash)), false).chain
         == node.chain + [node.blockPool[b.hash]]
  {
    hide Active, ActiveCount, Added, Counted;
    OldVotesCount(node.prepares, PrepareVote(p, n, b.hash), Active(p, node));
    OldVotesCount(node.commits, CommitVote(p, n, b.hash), Active(p, node));
    var entered := Entered(p, n, node, b.hash);
    SameActive(p, node, entered);
    SameActive(p, node, PreparesCounted(p, n, entered));
  }

  lemma SameActive(p: Params, node: Node, node': Node)
    requires node.chain == node'.chain
    ensures Active(p, node) == Active(p, node')
  {
  }

  // Confirmed votes count for ever, whoever is active.
  lemma OldVotesCount(pool: Pool, v: Vote, active: set<Key>)
    ensures ActiveCount(Added(pool, v), v.blockHash, active) >= |VotesOf(pool, v.blockHash).confirmed|
  {
    var was := VotesOf(pool, v.blockHash).confirmed;
    var now := VotesOf(Counted(Added(pool, v), v.blockHash, active), v.blockHash).confirmed;
    assert was.Keys <= now.Keys;
    Smaller(was.Keys, now.Keys);
    assert |was.Keys| == |was| && |now.Keys| == |now|;
  }

  // ---- every step keeps the invariant ----

  lemma PoolBlock(p: Params, chain: seq<Block>, pool: map<Bytes, Block>, b: Block)
    requires MembersOk(p.members) && PoolOk(p, chain, pool) && Next(p, chain, b)
    ensures PoolOk(p, chain, pool[b.hash := b])
  {
    PoolHasChain(p, chain, b);
    hide Next;
    assert chain[..|chain|] == chain;
    var pool' := pool[b.hash := b];
    forall h | h in pool'
      ensures Pooled(p, chain, h, pool'[h])
    {
      if h != b.hash {
        assert Pooled(p, chain, h, pool[h]);
      }
    }
  }

  lemma ReceiveKeepsVotes(p: Params, topic: Bytes -> Bytes, chain: seq<Block>, pool: Pool,
          voted: set<(Key, Bytes)>, v: Vote)
    requires MembersOk(p.members) && BallotsOk(p, topic, chain, pool, voted)
    requires (v.publicKey, v.blockHash) in voted && v.signature == p.crypto.sign(v.publicKey, topic(v.blockHash))
    ensures BallotsOk(p, topic, chain, Added(pool, v), voted)
  {
    hide ActiveAtHome;
    forall h | h in Added(pool, v)
      ensures VotesOk(p, topic, chain, voted, h, Added(pool, v)[h])
    {
      if h in pool {
        assert VotesOk(p, topic, chain, voted, h, pool[h]);
      }
    }
  }

  lemma CountKeepsVotes(p: Params, topic: Bytes -> Bytes, chain: seq<Block>, pool: Pool,
          voted: set<(Key, Bytes)>, hash: Bytes)
    requires MembersOk(p.members) && BallotsOk(p, topic, chain, pool, voted) && Home(p, chain, hash, |chain|)
    ensures BallotsOk(p, topic, chain, Counted(pool, hash, ActiveAfter(p.members, chain)), voted)
  {
    hide VotesOk, Home, ActiveAfter, Confirmed;
    var active := ActiveAfter(p.members, chain);
    var counted := Counted(pool, hash, active);
    forall h | h in counted
      ensures VotesOk(p, topic, chain, voted, h, counted[h])
    {
      assert VotesOk(p, topic, chain, voted, h, pool[h]);
      if h == hash {
        ConfirmKeepsVotes(p, topic, chain, voted, h, pool[h]);
      }
    }
  }

  lemma ConfirmKeepsVotes(p: Params, topic: Bytes -> Bytes, chain: seq<Block>, voted: set<(Key, Bytes)>,
          hash: Bytes, all: Votes)
    requires MembersOk(p.members) && VotesOk(p, topic, chain, voted, hash, all) && Home(p, chain, hash, |chain|)
    ensures VotesOk(p, topic, chain, voted, hash, Confirmed(all, ActiveAfter(p.members, chain)))
  {
    hide ActiveAtHome, Home, ActiveAfter, Signed;
    var active := ActiveAfter(p.members, chain);
    forall k | k in active
      ensures ActiveAtHome(p, chain, hash, k)
    {
      ActiveHere(p, chain, hash, k);
    }
    var confirmed := Confirmed(all, active).confirmed;
    forall s | s in confirmed
      ensures Signed(p, topic, voted, hash, s, confirmed[s]) && ActiveAtHome(p, chain, hash, confirmed[s])
    {
      if s in all.unconfirmed && all.unconfirmed[s] in active {
        assert confirmed[s] == all.unconfirmed[s];
      } else {
        assert confirmed[s] == all.confirmed[s];
      }
    }
  }

  lemma ActiveHere(p: Params, chain: seq<Block>, hash: Bytes, k: Key)
    requires MembersOk(p.members) && Home(p, chain, hash, |chain|) && k in ActiveAfter(p.members, chain)
    ensures ActiveAtHome(p, chain, hash, k)
  {
    hide Home, ActiveAfter;
    assert chain[..|chain|] == chain;
  }

  lemma LongerKeepsVotes(p: Params, topic: Bytes -> Bytes, chain: seq<Block>, pool: Pool,
          voted: set<(Key, Bytes)>, b: Block)
    requires MembersOk(p.members) && BallotsOk(p, topic, chain, pool, voted)
    ensures BallotsOk(p, topic, chain + [b], pool, voted)
  {
    forall h, k | ActiveAtHome(p, chain, h, k)
      ensures ActiveAtHome(p, chain + [b], h, k)
    {
      var i: nat :| i <= |chain| && Home(p, chain, h, i) && k in ActiveAfter(p.members, chain[..i]);
      HomeGrows(p, chain, [b], h, i);
      assert (chain + [b])[..i] == chain[..i];
    }
    hide ActiveAtHome;
    forall h | h in pool
      ensures VotesOk(p, topic, chain + [b], voted, h, pool[h])
    {
      assert VotesOk(p, topic, chain, voted, h, pool[h]);
    }
  }

  lemma LongerKeepsPool(p: Params, chain: seq<Block>, pool: map<Bytes, Block>, b: Block, dropped: set<Bytes>)
    requires MembersOk(p.members) && PoolOk(p, chain, pool)
    ensures PoolOk(p, chain + [b], pool - dropped)
  {
    hide Next;
    forall h | h in pool - dropped
      ensures Pooled(p, chain + [b], h, pool[h])
    {
      assert Pooled(p, chain, h, pool[h]);
      var i :| 0 < i <= |chain| && Next(p, chain[..i], pool[h]);
      assert (chain + [b])[..i] == chain[..i];
    }
  }

  lemma ConfirmedKeysCount(p: Params, topic: Bytes -> Bytes, h: Bytes, confirmed: map<Bytes, Key>)
    requires forall s :: s in confirmed ==> s == p.crypto.sign(confirmed[s], topic(h))
    ensures |confirmed.Values| == |confirmed|
    decreases |confirmed|
  {
    if confirmed != map[] {
      var s :| s in confirmed;
      var rest := confirmed - {s};
      ConfirmedKeysCount(p, topic, h, rest);
      forall k
        ensures k in confirmed.Values <==> k in rest.Values || k == confirmed[s]
      {
        if t :| t in confirmed && confirmed[t] == k {
          assert t == s || t in rest;
        }
        assert k == confirmed[s] ==> s in confirmed.Keys;
        if t :| t in rest && rest[t] == k {
          assert t in confirmed.Keys;
        }
      }
      assert confirmed.Values == rest.Values + {confirmed[s]};
    }
  }

  // Votes counted to the threshold at the height of a block are a quorum for it.
  lemma CountIsQuorum(p: Params, topic: Bytes -> Bytes, chain: seq<Block>, pool: Pool,
          voted: set<(Key, Bytes)>, hash: Bytes)
    requires MembersOk(p.members) && ParamsOk(p) && ChainOk(p.crypto, p.members, chain)
    requires BallotsOk(p, topic, chain, pool, voted) && Home(p, chain, hash, |chain|)
    requires ActiveCount(pool, hash, ActiveAfter(p.members, chain)) >= MinApprovals(|ActiveAfter(p.members, chain)|)
    ensures exists q :: IsQuorum(voted, ActiveAfter(p.members, chain), hash, q)
  {
    hide ChainOk, ActiveAfter, ParamsOk, VotesOk, Home, Confirmed;
    TwoThirds(ActiveCount(pool, hash, ActiveAfter(p.members, chain)), |ActiveAfter(p.members, chain)|);
    var active := ActiveAfter(p.members, chain);
    var counted := Counted(pool, hash, active);
    CountKeepsVotes(p, topic, chain, pool, voted, hash);
    assert hash in counted;
    QuorumOfVotes(p, topic, chain, voted, hash, counted[hash]);
    assert IsQuorum(voted, active, hash, counted[hash].confirmed.Values);
  }

  lemma QuorumOfVotes(p: Params, topic: Bytes -> Bytes, chain: seq<Block>, voted: set<(Key, Bytes)>,
          hash: Bytes, all: Votes)
    requires MembersOk(p.members) && ParamsOk(p) && ChainOk(p.crypto, p.members, chain)
    requires VotesOk(p, topic, chain, voted, hash, all) && Home(p, chain, hash, |chain|)
    ensures |all.confirmed.Values| == |all.confirmed|
    ensures all.confirmed.Values <= ActiveAfter(p.members, chain)
    ensures forall k :: k in all.confirmed.Values ==> (k, hash) in voted
  {
    hide ChainOk, ActiveAfter, ParamsOk, Home;
    ConfirmedKeysCount(p, topic, hash, all.confirmed);
    forall k | k in all.confirmed.Values
      ensures k in ActiveAfter(p.members, chain) && (k, hash) in voted
    {
      var s :| s in all.confirmed && all.confirmed[s] == k;
      assert Signed(p, topic, voted, hash, s, k) && ActiveAtHome(p, chain, hash, k);
      var i: nat :| i <= |chain| && Home(p, chain, hash, i) && k in ActiveAfter(p.members, chain[..i]);
      HomeUnique(p, chain, hash, i, |chain|);
      assert chain[..|chain|] == chain;
    }
  }

  lemma AppendPlaces(p: Params, node: Node, b: Block, hash: Bytes, pool: map<Bytes, Block>, commits: Pool)
    requires MembersOk(p.members) && CommitPlaced(p, node, hash) && node.phase == Committed
    requires b.hash == node.currentHash
    ensures
      CommitPlaced(p, node.(phase := NewRound, chain := node.chain + [b], blockPool := pool, commits := commits), hash)
  {
    var i: nat :| Home(p, node.chain, hash, i)
      && (if i < |node.chain| then node.chain[i].hash == hash
          else node.phase == Committed && node.currentHash == hash);
    HomeGrows(p, node.chain, [b], hash, i);
  }

  lemma AppendKeepsNode(p: Params, n: Key, node: Node, committed: set<(Key, Bytes)>, ramOpt: bool)
    requires MembersOk(p.members) && ParamsOk(p) && NodeOk(p, n, node, committed)
    requires node.phase == Committed && CommitsReached(p, node)
    ensures NodeOk(p, n, CommitsCounted(p, node, ramOpt), committed)
  {
    hide ChainOk, ActiveAfter, PoolOk, BallotsOk, IsQuorum, CommitPlaced, Home, ParamsOk, Counted, ActiveCount,
      ValidNext;
    var hash := node.currentHash;
    var b := node.blockPool[hash];
    var node' := CommitsCounted(p, node, ramOpt);
    PooledHash(p, node, hash);
    ChainGrows(p.crypto, p.members, node.chain, b);
    LongerKeepsPool(p, node.chain, node.blockPool, b, if ramOpt then {hash} else {});
    assert node.blockPool - {} == node.blockPool;
    CountKeepsVotes(p, p.commitTopic, node.chain, node.commits, committed, hash);
    LongerKeepsVotes(p, p.commitTopic, node.chain, node'.commits, committed, b);
    CountIsQuorum(p, p.commitTopic, node.chain, node.commits, committed, hash);
    LongerKeepsCertified(p, node.chain, committed, b);
    forall h | (n, h) in committed
      ensures CommitPlaced(p, node', h)
    {
      AppendPlaces(p, node, b, h, node'.blockPool, node'.commits);
    }
  }

  lemma LongerKeepsCertified(p: Params, chain: seq<Block>, committed: set<(Key, Bytes)>, b: Block)
    requires AllCertified(p, chain, committed) && Certified(p, committed, chain, b)
    ensures AllCertified(p, chain + [b], committed)
  {
    hide Certified;
    var longer := chain + [b];
    forall i | 1 <= i < |longer|
      ensures Certified(p, committed, longer[..i], longer[i])
    {
      assert longer[..i] == chain[..i];
      assert i == |chain| ==> chain[..i] == chain;
    }
  }

  lemma PooledHash(p: Params, node: Node, hash: Bytes)
    requires MembersOk(p.members) && PoolOk(p, node.chain, node.blockPool) && hash in node.blockPool
    ensures node.blockPool[hash].hash == hash
  {
    assert Pooled(p, node.chain, hash, node.blockPool[hash]);
  }

  lemma EnterKeepsNode(p: Params, n: Key, node: Node, committed: set<(Key, Bytes)>, hash: Bytes)
    requires MembersOk(p.members) && ParamsOk(p) && NodeOk(p, n, node, committed) && node.phase == NewRound
    requires node.chain != [] && hash in node.blockPool && Next(p, node.chain, node.blockPool[hash])
    ensures NodeOk(p, n, Entered(p, n, node, hash), committed)
  {
    hide ChainOk, ActiveAfter, PoolOk, BallotsOk, AllCertified, ParamsOk, Next, CommitPlaced;
    PooledHash(p, node, hash);
    assert node.chain[..|node.chain|] == node.chain;
    assert Home(p, node.chain, hash, |node.chain|);
    var node' := Entered(p, n, node, hash);
    forall h | (n, h) in committed
      ensures CommitPlaced(p, node', h)
    {
      IdlePlaces(p, node, node', h);
    }
  }

  // Outside the Committed phase every commit of a node names an appended block.
  lemma IdlePlaces(p: Params, node: Node, node': Node, hash: Bytes)
    requires MembersOk(p.members) && CommitPlaced(p, node, hash) && node.phase != Committed && node'.chain == node.chain
    ensures CommitPlaced(p, node', hash)
  {
    hide Home;
  }

  // ---- votes are only ever added ----

  lemma MoreKeepsVotes(p: Params, topic: Bytes -> Bytes, chain: seq<Block>, pool: Pool,
          voted: set<(Key, Bytes)>, more: set<(Key, Bytes)>)
    requires MembersOk(p.members) && BallotsOk(p, topic, chain, pool, voted)
    ensures BallotsOk(p, topic, chain, pool, voted + more)
  {
    hide ActiveAtHome;
    forall h | h in pool
      ensures VotesOk(p, topic, chain, voted + more, h, pool[h])
    {
      assert VotesOk(p, topic, chain, voted, h, pool[h]);
    }
  }

  lemma MoreCertified(p: Params, chain: seq<Block>, committed: set<(Key, Bytes)>, more: set<(Key, Bytes)>)
    requires AllCertified(p, chain, committed)
    ensures AllCertified(p, chain, committed + more)
  {
    hide ActiveAfter;
    forall i | 1 <= i < |chain|
      ensures Certified(p, committed + more, chain[..i], chain[i])
    {
      var q :| IsQuorum(committed, ActiveAfter(p.members, chain[..i]), chain[i].hash, q);
      assert IsQuorum(committed + more, ActiveAfter(p.members, chain[..i]), chain[i].hash, q);
    }
  }

  lemma VoteKeepsNode(p: Params, n: Key, node: Node, committed: set<(Key, Bytes)>, k: Key, hash: Bytes)
    requires MembersOk(p.members) && NodeOk(p, n, node, committed) && k != n
    ensures NodeOk(p, n, node, committed + {(k, hash)})
  {
    hide ChainOk, PoolOk, RoundOk, BallotsOk, AllCertified, CommitPlaced;
    MoreKeepsVotes(p, p.commitTopic, node.chain, node.commits, committed, {(k, hash)});
    MoreCertified(p, node.chain, committed, {(k, hash)});
  }

  // The step in which an honest node commits.
  lemma CommitKeepsNode(p: Params, n: Key, node: Node, committed: set<(Key, Bytes)>)
    requires MembersOk(p.members) && NodeOk(p, n, node, committed) && node.phase == Prepared
    ensures var node' := PreparesCounted(p, n, node);
      NodeOk(p, n, node', if node'.phase == Committed then committed + {(n, node.currentHash)} else committed)
  {
    hide ChainOk, PoolOk, BallotsOk, AllCertified, Home, Next, Active, ActiveCount, Counted, CommitPlaced;
    var hash := node.currentHash;
    var node' := PreparesCounted(p, n, node);
    if node'.phase == Committed {
      var more := committed + {(n, hash)};
      MoreKeepsVotes(p, p.commitTopic, node.chain, node.commits, committed, {(n, hash)});
      MoreCertified(p, node.chain, committed, {(n, hash)});
      ReceiveKeepsVotes(p, p.commitTopic, node.chain, node.commits, more, CommitVote(p, n, hash));
      forall h | (n, h) in more
        ensures CommitPlaced(p, node', h)
      {
        if h == hash {
          NewCommitPlaced(p, node');
        } else {
          IdlePlaces(p, node, node', h);
        }
      }
    } else {
      forall h | (n, h) in committed
        ensures CommitPlaced(p, node', h)
      {
        IdlePlaces(p, node, node', h);
      }
    }
  }

  lemma NewCommitPlaced(p: Params, node: Node)
    requires MembersOk(p.members) && RoundOk(p, node) && node.phase == Committed
    ensures CommitPlaced(p, node, node.currentHash)
  {
    hide Home, Next;
  }

  // Counting without reaching the threshold, receiving and forgetting leave the round as it is.
  lemma SameRoundKeepsNode(p: Params, n: Key, node: Node, committed: set<(Key, Bytes)>, prepares: Pool, commits: Pool)
    requires MembersOk(p.members) && NodeOk(p, n, node, committed)
    requires BallotsOk(p, p.commitTopic, node.chain, commits, committed)
    ensures NodeOk(p, n, node.(prepares := prepares, commits := commits), committed)
  {
    hide ChainOk, PoolOk, BallotsOk, AllCertified, Home, Next;
    var node' := node.(prepares := prepares, commits := commits);
    forall h | (n, h) in committed
      ensures CommitPlaced(p, node', h)
    {
      assert CommitPlaced(p, node, h);
    }
  }

  lemma ForgetKeepsVotes(p: Params, topic: Bytes -> Bytes, chain: seq<Block>, pool: Pool,
          voted: set<(Key, Bytes)>, hash: Bytes)
    requires MembersOk(p.members) && BallotsOk(p, topic, chain, pool, voted)
    ensures BallotsOk(p, topic, chain, pool - {hash}, voted)
  {
    hide VotesOk;
    var kept := pool - {hash};
    forall h | h in kept
      ensures VotesOk(p, topic, chain, voted, h, kept[h])
    {
      assert VotesOk(p, topic, chain, voted, h, pool[h]);
    }
  }

  lemma PoolKeepsNode(p: Params, n: Key, node: Node, committed: set<(Key, Bytes)>, b: Block)
    requires MembersOk(p.members) && NodeOk(p, n, node, committed) && Next(p, node.chain, b)
    requires node.phase == NewRound || b.hash !in node.blockPool
    ensures NodeOk(p, n, node.(blockPool := node.blockPool[b.hash := b]), committed)
  {
    hide ChainOk, PoolOk, BallotsOk, AllCertified, Home, Next;
    PoolBlock(p, node.chain, node.blockPool, b);
    var node' := node.(blockPool := node.blockPool[b.hash := b]);
    forall h | (n, h) in committed
      ensures CommitPlaced(p, node', h)
    {
      assert CommitPlaced(p, node, h);
    }
  }

  // ---- the steps together ----

  lemma FaultyKeepsInv(p: Params, s: Net, k: Key, hash: Bytes)
    requires MembersOk(p.members) && Inv(p, s) && k !in p.honest
    ensures Inv(p, s.(committed := s.committed + {(k, hash)}))
  {
    hide NodeOk;
    forall m | m in s.nodes
      ensures NodeOk(p, m, s.nodes[m], s.committed + {(k, hash)})
    {
      VoteKeepsNode(p, m, s.nodes[m], s.committed, k, hash);
    }
  }

  // The node that moves; the others see at most one more commit of its.
  lemma MoveKeepsInv(p: Params, s: Net, n: Key, node: Node, hash: Option<Bytes>, s': Net)
    requires MembersOk(p.members) && Inv(p, s) && n in s.nodes
    requires s'.nodes == s.nodes[n := node]
    requires s'.committed == if hash.Some? then s.committed + {(n, hash.value)} else s.committed
    requires NodeOk(p, n, node, s'.committed)
    ensures Inv(p, s')
  {
    hide NodeOk;
    forall m | m in s'.nodes
      ensures NodeOk(p, m, s'.nodes[m], s'.committed)
    {
      if m != n && hash.Some? {
        VoteKeepsNode(p, m, s.nodes[m], s.committed, n, hash.value);
      }
    }
  }

  lemma NodeStepKeepsInv(p: Params, s: Net, e: Event, s': Net)
    requires MembersOk(p.members) && ParamsOk(p) && Inv(p, s) && At(e).Some?
    requires e.n in s.nodes && NodeStep(p, s, e, s.nodes[e.n], s') && AsPooled(s, e)
    ensures Inv(p, s')
  {
    hide ParamsOk, ChainOk, PoolOk, RoundOk, BallotsOk, AllCertified, CommitPlaced, Next, CommitsReached,
      Active, CreateBlock;
    hide Added, Counted, Confirmed, ProposerAfter;
    var n, node := e.n, s.nodes[e.n];
    assert NodeOk(p, n, node, s.committed);
    var node' := s'.nodes[n];
    match e
    case Propose(_, now, txs) =>
      var b := CreateBlock(p.crypto, node.chain[|node.chain| - 1], now, txs, n);
      ProposalIsNext(p, node, now, txs, n);
      PoolKeepsNode(p, n, node, s.committed, b);
      MoveKeepsInv(p, s, n, node', None, s');
    case ReceivePrePrepare(_, b) =>
      PoolKeepsNode(p, n, node, s.committed, b);
      MoveKeepsInv(p, s, n, node', None, s');
    case ReceivePrepare(_, v) =>
      SameRoundKeepsNode(p, n, node, s.committed, node'.prepares, node.commits);
      MoveKeepsInv(p, s, n, node', None, s');
    case ReceiveCommit(_, v) =>
      ReceiveKeepsVotes(p, p.commitTopic, node.chain, node.commits, s.committed, v);
      SameRoundKeepsNode(p, n, node, s.committed, node.prepares, node'.commits);
      MoveKeepsInv(p, s, n, node', None, s');
    case EnterFromPool(_, b) =>
      PoolHasChain(p, node.chain, b);
      EnterKeepsNode(p, n, node, s.committed, b.hash);
      MoveKeepsInv(p, s, n, node', None, s');
    case EnterFromMessage(_, b) =>
      EnterKeepsNodeIff(p, n, node, s.committed, b);
      MoveKeepsInv(p, s, n, node', None, s');
    case CountPrepares(_) =>
      CommitKeepsNode(p, n, node, s.committed);
      MoveKeepsInv(p, s, n, node', if node'.phase == Committed then Some(node.currentHash) else None, s');
    case CountCommits(_, ramOpt) =>
      CountKeepsNode(p, n, node, s.committed, ramOpt);
      MoveKeepsInv(p, s, n, node', None, s');
    case ForgetVotes(_, hash) =>
      ForgetKeepsVotes(p, p.commitTopic, node.chain, node.commits, s.committed, hash);
      SameRoundKeepsNode(p, n, node, s.committed, node'.prepares, node'.commits);
      MoveKeepsInv(p, s, n, node', None, s');
  }

  lemma CountKeepsNode(p: Params, n: Key, node: Node, committed: set<(Key, Bytes)>, ramOpt: bool)
    requires MembersOk(p.members) && ParamsOk(p) && NodeOk(p, n, node, committed) && node.phase == Committed
    ensures NodeOk(p, n, CommitsCounted(p, node, ramOpt), committed)
  {
    hide ParamsOk, ChainOk, PoolOk, BallotsOk, AllCertified, CommitPlaced, Next, Home, CommitsReached, Counted,
      ActiveAfter;
    if CommitsReached(p, node) {
      AppendKeepsNode(p, n, node, committed, ramOpt);
    } else {
      CountKeepsVotes(p, p.commitTopic, node.chain, node.commits, committed, node.currentHash);
      SameRoundKeepsNode(p, n, node, committed, node.prepares,
        Counted(node.commits, node.currentHash, Active(p, node)));
    }
  }

  lemma PoolHasChain(p: Params, chain: seq<Block>, b: Block)
    requires MembersOk(p.members) && Next(p, chain, b)
    ensures chain != []
  {
  }

  lemma ProposalIsNext(p: Params, node: Node, now: int, txs: seq<Transaction>, n: Key)
    requires MembersOk(p.members) && node.chain != [] && n == ProposerAfter(p.members, node.chain).key
    requires forall i :: 0 <= i < |txs| ==> p.crypto.verifyTransaction(txs[i])
    ensures Next(p, node.chain, CreateBlock(p.crypto, node.chain[|node.chain| - 1], now, txs, n))
  {
    CreatedBlockIsValid(p.crypto, p.members, node.chain, now, txs, n);
  }

  lemma StepKeepsInv(p: Params, s: Net, e: Event, s': Net)
    requires MembersOk(p.members) && ParamsOk(p) && Inv(p, s) && Step(p, s, e, s') && AsPooled(s, e)
    ensures Inv(p, s')
  {
    hide ParamsOk, NodeOk, NodeStep;
    match e
    case FaultyPrepare(k, hash) =>
    case FaultyCommit(k, hash) => FaultyKeepsInv(p, s, k, hash);
    case _ => NodeStepKeepsInv(p, s, e, s');
  }

  lemma {:induction false} RunKeepsInv(p: Params, run: seq<Net>, events: seq<Event>, i: nat)
    requires MembersOk(p.members) && ParamsOk(p) && IsRun(p, run, events) && i < |run|
    requires AnnouncedAsPooled(run, events, i)
    ensures Inv(p, run[i])
  {
    hide ParamsOk, MembersOk, Step, Inv, Initial;
    if i == 0 {
      InitialInv(p, run[0]);
    } else {
      RunKeepsInv(p, run, events, i - 1);
      assert Step(p, run[i - 1], events[i - 1], run[i - 1 + 1]);
      StepKeepsInv(p, run[i - 1], events[i - 1], run[i]);
    }
  }

  lemma InitialInv(p: Params, s: Net)
    requires MembersOk(p.members) && Initial(p, s)
    ensures Inv(p, s)
  {
    hide CommitPlaced, Next, ValidNext, Home;
  }

  // ---- agreement ----

  lemma {:induction false} Smaller<T>(a: set<T>, b: set<T>)
    requires a <= b
    ensures |a| <= |b|
  {
    if a != {} {
      var x :| x in a;
      Smaller(a - {x}, b - {x});
    }
  }

  lemma QuorumsShareHonest(p: Params, committed: set<(Key, Bytes)>, active: set<Key>, g: Bytes, h: Bytes)
      returns (k: Key)
    requires FewFaulty(p, active)
    requires exists q :: IsQuorum(committed, active, g, q)
    requires exists r :: IsQuorum(committed, active, h, r)
    ensures k in p.honest && (k, g) in committed && (k, h) in committed
  {
    var q :| IsQuorum(committed, active, g, q);
    var r :| IsQuorum(committed, active, h, r);
    assert |q + r| == |q| + |r| - |q * r|;
    Smaller(q + r, active);
    if forall x :: x in q * r ==> x !in p.honest {
      Smaller(q * r, active - p.honest);
      assert false;
    }
    k :| k in q * r && k in p.honest;
  }

  // ---- the threshold ----

  // A node moves on exactly if more than two thirds of the active validators are counted.
  lemma MovesIffTwoThirds(p: Params, n: Key, node: Node, ramOpt: bool)
    requires node.phase != NewRound
    ensures (PreparesCounted(p, n, node.(phase := Prepared)).phase == Committed)
       <==> 3 * ActiveCount(node.prepares, node.currentHash, Active(p, node)) > 2 * |Active(p, node)|
    ensures CommitsCounted(p, node, ramOpt).chain ==
      if 3 * ActiveCount(node.commits, node.currentHash, Active(p, node)) > 2 * |Active(p, node)|
         && node.currentHash in node.blockPool
      then node.chain + [node.blockPool[node.currentHash]] else node.chain
    ensures var after := CommitsCounted(p, node, ramOpt);
      after.blockPool
      == if ramOpt && after.chain != node.chain then node.blockPool - {node.currentHash} else node.blockPool
  {
    hide ActiveCount, ActiveAfter, Counted, Added;
    TwoThirds(ActiveCount(node.prepares, node.currentHash, Active(p, node)), |Active(p, node)|);
    TwoThirds(ActiveCount(node.commits, node.currentHash, Active(p, node)), |Active(p, node)|);
  }

  // The honest validators reach the threshold by themselves exactly if fewer than a third of
  // all are faulty.
  lemma HonestSufficeIff(p: Params, active: set<Key>)
    ensures |active * p.honest| >= MinApprovals(|active|) <==> FewFaulty(p, active)
  {
    assert active == active * p.honest + (active - p.honest);
    assert |active| == |active * p.honest| + |active - p.honest|;
    TwoThirds(|active * p.honest|, |active|);
  }

  // An honest commit for a block that is valid on top of before sits at that height in the
  // chain of its signer.
  lemma CommitAtHeight(p: Params, k: Key, node: Node, committed: set<(Key, Bytes)>, before: seq<Block>, b: Block)
    requires MembersOk(p.members) && ParamsOk(p) && NodeOk(p, k, node, committed) && (k, b.hash) in committed
    requires ChainOk(p.crypto, p.members, before) && ValidNext(p.crypto, p.members, before, b)
    ensures |before| <= |node.chain|
    ensures b.hash == if |before| < |node.chain| then node.chain[|before|].hash else node.currentHash
  {
    hide ParamsOk, ChainOk, PoolOk, RoundOk, BallotsOk, AllCertified, ValidNext;
    assert CommitPlaced(p, node, b.hash);
    var i: nat :| Home(p, node.chain, b.hash, i)
      && (if i < |node.chain| then node.chain[i].hash == b.hash
          else node.phase == Committed && node.currentHash == b.hash);
    HomeTip(p, node.chain, b.hash, i, b, before);
    assert |node.chain[..i]| == |before|;
  }

  lemma SameNext(p: Params, s: Net, before: seq<Block>, a: Block, b: Block)
    requires MembersOk(p.members) && ParamsOk(p) && Inv(p, s)
    requires ChainOk(p.crypto, p.members, before) && FewFaulty(p, ActiveAfter(p.members, before))
    requires ValidNext(p.crypto, p.members, before, a) && Certified(p, s.committed, before, a)
    requires ValidNext(p.crypto, p.members, before, b) && Certified(p, s.committed, before, b)
    ensures a == b
  {
    assert Sound(p.crypto);
    hide ParamsOk, ChainOk, ActiveAfter, FewFaulty, NodeOk, ValidNext, IsQuorum;
    var k := QuorumsShareHonest(p, s.committed, ActiveAfter(p.members, before), a.hash, b.hash);
    CommitAtHeight(p, k, s.nodes[k], s.committed, before, a);
    CommitAtHeight(p, k, s.nodes[k], s.committed, before, b);
    SameHashSameBlock(p.crypto, p.members, before, a, b);
  }

  lemma {:induction false} SamePrefix(p: Params, s: Net, x: Key, y: Key, n: nat)
    requires MembersOk(p.members) && ParamsOk(p) && Inv(p, s) && x in s.nodes && y in s.nodes
    requires n <= |s.nodes[x].chain| && n <= |s.nodes[y].chain| && FewFaultyAlong(p, s.nodes[x].chain[..n])
    ensures s.nodes[x].chain[..n] == s.nodes[y].chain[..n]
  {
    hide ParamsOk, ValidNext, Certified, Inv, FewFaultyAlong, FewFaulty, ChainOk;
    var xs, ys := s.nodes[x].chain, s.nodes[y].chain;
    ChainAndCertificates(p, s, x);
    ChainAndCertificates(p, s, y);
    if n == 1 {
      SameStart(p, xs, ys);
    } else if n > 1 {
      var before := xs[..n - 1];
      FewFaultyBefore(p, xs, n);
      SamePrefix(p, s, x, y, n - 1);
      BlockAt(p, xs, s.committed, n - 1);
      BlockAt(p, ys, s.committed, n - 1);
      SameNext(p, s, before, xs[n - 1], ys[n - 1]);
      assert xs[..n] == before + [xs[n - 1]] && ys[..n] == before + [ys[n - 1]];
    }
  }

  lemma ChainAndCertificates(p: Params, s: Net, x: Key)
    requires MembersOk(p.members) && Inv(p, s) && x in s.nodes
    ensures ChainOk(p.crypto, p.members, s.nodes[x].chain) && AllCertified(p, s.nodes[x].chain, s.committed)
  {
    hide ChainOk, AllCertified, PoolOk, RoundOk, BallotsOk, CommitPlaced;
    assert NodeOk(p, x, s.nodes[x], s.committed);
  }

  lemma BlockAt(p: Params, chain: seq<Block>, committed: set<(Key, Bytes)>, i: nat)
    requires MembersOk(p.members) && ChainOk(p.crypto, p.members, chain) && AllCertified(p, chain, committed)
    requires 1 <= i < |chain|
    ensures ChainOk(p.crypto, p.members, chain[..i])
    ensures ValidNext(p.crypto, p.members, chain[..i], chain[i]) && Certified(p, committed, chain[..i], chain[i])
  {
    hide ValidNext, Certified;
    ChainPrefix(p.crypto, p.members, chain, i);
  }

  lemma SameStart(p: Params, xs: seq<Block>, ys: seq<Block>)
    requires MembersOk(p.members) && ChainOk(p.crypto, p.members, xs) && ChainOk(p.crypto, p.members, ys)
    ensures xs[..1] == ys[..1]
  {
    assert xs[..1] == [xs[0]] && ys[..1] == [ys[0]];
  }

  lemma FewFaultyBefore(p: Params, chain: seq<Block>, n: nat)
    requires 1 < n <= |chain| && FewFaultyAlong(p, chain[..n])
    ensures FewFaultyAlong(p, chain[..n - 1]) && FewFaulty(p, ActiveAfter(p.members, chain[..n - 1]))
  {
    FewFaultyFront(p, chain[..n], n - 1);
    assert chain[..n][..n - 1] == chain[..n - 1];
  }

  lemma FewFaultyFront(p: Params, chain: seq<Block>, n: nat)
    requires n <= |chain| && FewFaultyAlong(p, chain)
    ensures FewFaultyAlong(p, chain[..n])
  {
    hide FewFaulty, ActiveAfter;
    forall k | 1 <= k < n
      ensures FewFaulty(p, ActiveAfter(p.members, chain[..n][..k]))
    {
      assert chain[..n][..k] == chain[..k];
    }
  }

  lemma StepGrowsChain(p: Params, s: Net, e: Event, s': Net, x: Key)
    requires MembersOk(p.members) && Step(p, s, e, s') && x in s.nodes
    ensures x in s'.nodes && s.nodes[x].chain <= s'.nodes[x].chain
  {
    hide Next, CommitsReached, Counted, Added, ActiveCount, CreateBlock, ProposerAfter, Active;
  }

  lemma {:induction false} RunGrowsChain(p: Params, run: seq<Net>, events: seq<Event>, i: nat, j: nat, x: Key)
    requires MembersOk(p.members) && IsRun(p, run, events) && i <= j < |run| && x in run[i].nodes
    ensures x in run[j].nodes && run[i].nodes[x].chain <= run[j].nodes[x].chain
  {
    hide Step, Initial;
    if i < j {
      RunGrowsChain(p, run, events, i, j - 1, x);
      assert Step(p, run[j - 1], events[j - 1], run[j - 1 + 1]);
      StepGrowsChain(p, run[j - 1], events[j - 1], run[j], x);
    }
  }

  // What two honest nodes hold at any two moments never forks, whatever else the network does,
  // if fewer than a third are faulty along one of the two chains.
  lemma ChainsNeverFork(p: Params, run: seq<Net>, events: seq<Event>, i: nat, j: nat, x: Key, y: Key)
    requires MembersOk(p.members) && ParamsOk(p) && IsRun(p, run, events) && i <= j < |run|
    requires AnnouncedAsPooled(run, events, j)
    requires x in run[i].nodes && y in run[j].nodes
    requires FewFaultyAlong(p, run[i].nodes[x].chain) || FewFaultyAlong(p, run[j].nodes[y].chain)
    ensures var a, b := run[i].nodes[x].chain, run[j].nodes[y].chain; a <= b || b <= a
  {
    hide ParamsOk, IsRun, Inv, FewFaultyAlong;
    RunGrowsChain(p, run, events, i, j, x);
    RunKeepsInv(p, run, events, j);
    var a, b, c := run[i].nodes[x].chain, run[j].nodes[y].chain, run[j].nodes[x].chain;
    var n := if |a| <= |b| then |a| else |b|;
    assert c[..n] == a[..n];
    if FewFaultyAlong(p, a) {
      FewFaultyFront(p, a, n);
      SamePrefix(p, run[j], x, y, n);
    } else {
      FewFaultyFront(p, b, n);
      SamePrefix(p, run[j], y, x, n);
    }
    assert a[..|a|] == a && b[..|b|] == b;
  }
}
