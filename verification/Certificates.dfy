/**
 Why the two vote phases are there: whatever an honest node commits to, and whatever it
 appends, a quorum of the validators active before it has prepared.
 */
module Certificates {
  import opened Wrappers
  import opened Ledger
  import opened VotePools
  import opened Agreement

  // A quorum prepared the block where it belongs.
  ghost predicate Backed(p: Params, prepared: set<(Key, Bytes)>, chain: seq<Block>, hash: Bytes)
    requires MembersOk(p.members)
  {
    exists i: nat :: i <= |chain| && Home(p, chain, hash, i) && QuorumFor(p, prepared, chain[..i], hash)
  }

  ghost predicate QuorumFor(p: Params, voted: set<(Key, Bytes)>, before: seq<Block>, hash: Bytes) {
    exists q :: IsQuorum(voted, ActiveAfter(p.members, before), hash, q)
  }

  ghost predicate PreparesOk(p: Params, n: Key, node: Node, prepared: set<(Key, Bytes)>, committed: set<(Key, Bytes)>)
    requires MembersOk(p.members)
  {
    && BallotsOk(p, p.prepareTopic, node.chain, node.prepares, prepared)
    && forall h :: (n, h) in committed ==> Backed(p, prepared, node.chain, h)
  }

  ghost predicate AllPrepared(p: Params, s: Net)
    requires MembersOk(p.members)
  {
    forall n :: n in s.nodes ==> PreparesOk(p, n, s.nodes[n], s.prepared, s.committed)
  }

  // ---- what keeps it ----

  lemma MoreBacked(p: Params, prepared: set<(Key, Bytes)>, more: set<(Key, Bytes)>, chain: seq<Block>,
          later: seq<Block>, hash: Bytes)
    requires MembersOk(p.members) && Backed(p, prepared, chain, hash)
    ensures Backed(p, prepared + more, chain + later, hash)
  {
    hide Home, ActiveAfter;
    var i: nat :| i <= |chain| && Home(p, chain, hash, i) && QuorumFor(p, prepared, chain[..i], hash);
    HomeGrows(p, chain, later, hash, i);
    assert (chain + later)[..i] == chain[..i];
    var q :| IsQuorum(prepared, ActiveAfter(p.members, chain[..i]), hash, q);
    assert IsQuorum(prepared + more, ActiveAfter(p.members, chain[..i]), hash, q);
  }

  // Other nodes vote: prepares of anybody, commits of others.
  lemma VotesElsewhere(p: Params, n: Key, node: Node, prepared: set<(Key, Bytes)>, committed: set<(Key, Bytes)>,
                       more: set<(Key, Bytes)>, committed': set<(Key, Bytes)>)
    requires MembersOk(p.members) && PreparesOk(p, n, node, prepared, committed)
    requires forall h :: (n, h) in committed' ==> (n, h) in committed
    ensures PreparesOk(p, n, node, prepared + more, committed')
  {
    hide BallotsOk, Backed;
    MoreKeepsVotes(p, p.prepareTopic, node.chain, node.prepares, prepared, more);
    forall h | (n, h) in committed'
      ensures Backed(p, prepared + more, node.chain, h)
    {
      MoreBacked(p, prepared, more, node.chain, [], h);
      assert node.chain + [] == node.chain;
    }
  }

  // The node's own round, prepares apart.
  lemma SamePrepares(p: Params, n: Key, node: Node, node': Node, prepared: set<(Key, Bytes)>,
          committed: set<(Key, Bytes)>)
    requires MembersOk(p.members) && PreparesOk(p, n, node, prepared, committed)
    requires node'.chain == node.chain && BallotsOk(p, p.prepareTopic, node.chain, node'.prepares, prepared)
    ensures PreparesOk(p, n, node', prepared, committed)
  {
  }

  // A node prepares the block it takes up.
  lemma EnterPrepares(p: Params, n: Key, node: Node, prepared: set<(Key, Bytes)>, committed: set<(Key, Bytes)>,
          hash: Bytes)
    requires MembersOk(p.members) && PreparesOk(p, n, node, prepared, committed)
    ensures PreparesOk(p, n, Entered(p, n, node, hash), prepared + {(n, hash)}, committed)
  {
    hide BallotsOk, Backed, Added;
    VotesElsewhere(p, n, node, prepared, committed, {(n, hash)}, committed);
    ReceiveKeepsVotes(p, p.prepareTopic, node.chain, node.prepares, prepared + {(n, hash)}, PrepareVote(p, n, hash));
    SamePrepares(p, n, node, Entered(p, n, node, hash), prepared + {(n, hash)}, committed);
  }

  // A node commits only with a quorum of prepares.
  lemma CommitIsBacked(p: Params, n: Key, node: Node, prepared: set<(Key, Bytes)>, committed: set<(Key, Bytes)>)
    requires MembersOk(p.members) && ParamsOk(p) && ChainOk(p.crypto, p.members, node.chain) && RoundOk(p, node)
    requires PreparesOk(p, n, node, prepared, committed) && node.phase == Prepared
    ensures var node' := PreparesCounted(p, n, node);
      PreparesOk(p, n, node', prepared,
        if node'.phase == Committed then committed + {(n, node.currentHash)} else committed)
  {
    hide ParamsOk, ChainOk, BallotsOk, Backed, Home, Next, Counted, ActiveCount, ActiveAfter, Added;
    var hash, node' := node.currentHash, PreparesCounted(p, n, node);
    CountKeepsVotes(p, p.prepareTopic, node.chain, node.prepares, prepared, hash);
    SamePrepares(p, n, node, node', prepared, committed);
    if node'.phase == Committed {
      CountIsQuorum(p, p.prepareTopic, node.chain, node.prepares, prepared, hash);
      BackedHere(p, prepared, node.chain, hash);
    }
  }

  lemma BackedHere(p: Params, prepared: set<(Key, Bytes)>, chain: seq<Block>, hash: Bytes)
    requires MembersOk(p.members) && Home(p, chain, hash, |chain|) && QuorumFor(p, prepared, chain, hash)
    ensures Backed(p, prepared, chain, hash)
  {
    hide Home, QuorumFor;
    assert chain[..|chain|] == chain;
  }

  lemma AppendKeepsPrepares(p: Params, n: Key, node: Node, prepared: set<(Key, Bytes)>,
          committed: set<(Key, Bytes)>, ramOpt: bool)
    requires MembersOk(p.members) && PreparesOk(p, n, node, prepared, committed)
    ensures PreparesOk(p, n, CommitsCounted(p, node, ramOpt), prepared, committed)
  {
    hide BallotsOk, Backed, Counted, Active, ActiveCount;
    var node' := CommitsCounted(p, node, ramOpt);
    if CommitsReached(p, node) {
      var b := node.blockPool[node.currentHash];
      LongerKeepsVotes(p, p.prepareTopic, node.chain, node.prepares, prepared, b);
      forall h | (n, h) in committed
        ensures Backed(p, prepared, node'.chain, h)
      {
        MoreBacked(p, prepared, {}, node.chain, [b], h);
        assert prepared + {} == prepared;
      }
    }
  }

  // ---- the steps together ----

  lemma MoveKeepsPrepared(p: Params, s: Net, n: Key, s': Net, more: set<(Key, Bytes)>)
    requires MembersOk(p.members) && AllPrepared(p, s) && n in s.nodes && n in s'.nodes
    requires s'.nodes == s.nodes[n := s'.nodes[n]] && s'.prepared == s.prepared + more
    requires forall m, h :: (m, h) in s'.committed && m != n ==> (m, h) in s.committed
    requires PreparesOk(p, n, s'.nodes[n], s'.prepared, s'.committed)
    ensures AllPrepared(p, s')
  {
    hide PreparesOk;
    forall m | m in s'.nodes
      ensures PreparesOk(p, m, s'.nodes[m], s'.prepared, s'.committed)
    {
      if m != n {
        VotesElsewhere(p, m, s.nodes[m], s.prepared, s.committed, more, s'.committed);
      }
    }
  }

  lemma FaultyKeepsPrepared(p: Params, s: Net, s': Net, k: Key, more: set<(Key, Bytes)>)
    requires MembersOk(p.members) && AllPrepared(p, s) && s.nodes.Keys == p.honest && k !in p.honest
    requires s'.nodes == s.nodes && s'.prepared == s.prepared + more
    requires forall m, h :: (m, h) in s'.committed && m != k ==> (m, h) in s.committed
    ensures AllPrepared(p, s')
  {
    hide PreparesOk;
    forall m | m in s'.nodes
      ensures PreparesOk(p, m, s'.nodes[m], s'.prepared, s'.committed)
    {
      VotesElsewhere(p, m, s.nodes[m], s.prepared, s.committed, more, s'.committed);
    }
  }

  lemma NodeStepKeepsPrepared(p: Params, s: Net, e: Event, s': Net)
    requires MembersOk(p.members) && ParamsOk(p) && Inv(p, s) && AllPrepared(p, s) && At(e).Some?
    requires e.n in s.nodes && NodeStep(p, s, e, s.nodes[e.n], s')
    ensures AllPrepared(p, s')
  {
    hide ParamsOk, ChainOk, PoolOk, RoundOk, BallotsOk, Backed, AllCertified, CommitPlaced, Next,
      CommitsReached, Active;
    hide Added, Counted, Confirmed, ProposerAfter, CreateBlock, AllPrepared;
    var n, node := e.n, s.nodes[e.n];
    assert NodeOk(p, n, node, s.committed);
    PreparesOf(p, s, n);
    var node', prepared := s'.nodes[n], s.prepared;
    assert prepared + {} == prepared;
    match e
    case ReceivePrepare(_, v) =>
      ReceiveKeepsVotes(p, p.prepareTopic, node.chain, node.prepares, prepared, v);
      SamePrepares(p, n, node, node', prepared, s.committed);
      MoveKeepsPrepared(p, s, n, s', {});
    case EnterFromPool(_, b) =>
      EnterPrepares(p, n, node, prepared, s.committed, b.hash);
      MoveKeepsPrepared(p, s, n, s', {(n, b.hash)});
    case EnterFromMessage(_, b) =>
      EnterPrepares(p, n, node, prepared, s.committed, b.hash);
      MoveKeepsPrepared(p, s, n, s', {(n, b.hash)});
    case CountPrepares(_) =>
      CommitIsBacked(p, n, node, prepared, s.committed);
      MoveKeepsPrepared(p, s, n, s', {});
    case CountCommits(_, ramOpt) =>
      AppendKeepsPrepares(p, n, node, prepared, s.committed, ramOpt);
      MoveKeepsPrepared(p, s, n, s', {});
    case ForgetVotes(_, hash) =>
      ForgetKeepsVotes(p, p.prepareTopic, node.chain, node.prepares, prepared, hash);
      SamePrepares(p, n, node, node', prepared, s.committed);
      MoveKeepsPrepared(p, s, n, s', {});
    case _ =>
      SamePrepares(p, n, node, node', prepared, s.committed);
      MoveKeepsPrepared(p, s, n, s', {});
  }

  lemma PreparesOf(p: Params, s: Net, n: Key)
    requires MembersOk(p.members) && AllPrepared(p, s) && n in s.nodes
    ensures PreparesOk(p, n, s.nodes[n], s.prepared, s.committed)
  {
  }

  lemma StepKeepsPrepared(p: Params, s: Net, e: Event, s': Net)
    requires MembersOk(p.members) && ParamsOk(p) && Inv(p, s) && AllPrepared(p, s) && Step(p, s, e, s')
    ensures AllPrepared(p, s')
  {
    hide ParamsOk, NodeOk, NodeStep, AllPrepared;
    match e
    case FaultyPrepare(k, hash) => FaultyKeepsPrepared(p, s, s', k, {(k, hash)});
    case FaultyCommit(k, hash) =>
      assert s.prepared + {} == s.prepared;
      FaultyKeepsPrepared(p, s, s', k, {});
    case _ => NodeStepKeepsPrepared(p, s, e, s');
  }

  lemma {:induction false} RunKeepsPrepared(p: Params, run: seq<Net>, events: seq<Event>, i: nat)
    requires MembersOk(p.members) && ParamsOk(p) && IsRun(p, run, events) && i < |run|
    requires AnnouncedAsPooled(run, events, i)
    ensures AllPrepared(p, run[i])
  {
    hide ParamsOk, MembersOk, Step, Inv, Initial, AllPrepared;
    if i == 0 {
      NothingPrepared(p, run[0]);
    } else {
      RunKeepsPrepared(p, run, events, i - 1);
      RunKeepsInv(p, run, events, i - 1);
      assert Step(p, run[i - 1], events[i - 1], run[i - 1 + 1]);
      StepKeepsPrepared(p, run[i - 1], events[i - 1], run[i]);
    }
  }

  lemma NothingPrepared(p: Params, s: Net)
    requires MembersOk(p.members) && Initial(p, s)
    ensures AllPrepared(p, s)
  {
    hide Backed;
  }

  // ---- what it gives ----

  // A block that an honest node has appended was prepared by a quorum of the validators active
  // before it, fewer than a third of them being faulty: two thirds checked it.
  lemma AppendedIsPrepared(p: Params, s: Net, n: Key, i: nat)
    requires MembersOk(p.members) && ParamsOk(p) && Inv(p, s) && AllPrepared(p, s)
    requires n in s.nodes && 1 <= i < |s.nodes[n].chain|
    requires FewFaulty(p, ActiveAfter(p.members, s.nodes[n].chain[..i]))
    ensures QuorumFor(p, s.prepared, s.nodes[n].chain[..i], s.nodes[n].chain[i].hash)
  {
    hide ParamsOk, Inv, AllPrepared, PreparesOk, ChainOk, AllCertified, IsQuorum, FewFaulty, ActiveAfter, ValidNext;
    var chain := s.nodes[n].chain;
    ChainAndCertificates(p, s, n);
    BlockAt(p, chain, s.committed, i);
    var before, b := chain[..i], chain[i];
    var k := QuorumsShareHonest(p, s.committed, ActiveAfter(p.members, before), b.hash, b.hash);
    HonestIsNode(p, s, k);
    ChainAndCertificates(p, s, k);
    CommitBacked(p, s, k, b.hash);
    BackedMeansPrepared(p, s.prepared, s.nodes[k].chain, before, b);
  }

  lemma HonestIsNode(p: Params, s: Net, k: Key)
    requires MembersOk(p.members) && Inv(p, s) && k in p.honest
    ensures k in s.nodes
  {
  }

  lemma CommitBacked(p: Params, s: Net, k: Key, hash: Bytes)
    requires MembersOk(p.members) && AllPrepared(p, s) && k in s.nodes && (k, hash) in s.committed
    ensures Backed(p, s.prepared, s.nodes[k].chain, hash)
  {
    hide Backed;
    PreparesOf(p, s, k);
  }

  lemma BackedMeansPrepared(p: Params, prepared: set<(Key, Bytes)>, chain: seq<Block>, before: seq<Block>, b: Block)
    requires MembersOk(p.members) && ParamsOk(p)
    requires ChainOk(p.crypto, p.members, chain) && ChainOk(p.crypto, p.members, before)
    requires ValidNext(p.crypto, p.members, before, b) && Backed(p, prepared, chain, b.hash)
    ensures QuorumFor(p, prepared, before, b.hash)
  {
    hide ParamsOk, ChainOk, ValidNext, Home, QuorumFor;
    var i: nat :| i <= |chain| && Home(p, chain, b.hash, i) && QuorumFor(p, prepared, chain[..i], b.hash);
    HomeTip(p, chain, b.hash, i, b, before);
  }

  lemma RunAppendsPrepared(p: Params, run: seq<Net>, events: seq<Event>, t: nat, n: Key, i: nat)
    requires MembersOk(p.members) && ParamsOk(p) && IsRun(p, run, events) && t < |run|
    requires AnnouncedAsPooled(run, events, t)
    requires n in run[t].nodes && 1 <= i < |run[t].nodes[n].chain|
    requires FewFaulty(p, ActiveAfter(p.members, run[t].nodes[n].chain[..i]))
    ensures QuorumFor(p, run[t].prepared, run[t].nodes[n].chain[..i], run[t].nodes[n].chain[i].hash)
  {
    hide ParamsOk, IsRun, Inv, AllPrepared, QuorumFor, FewFaulty;
    RunKeepsInv(p, run, events, t);
    RunKeepsPrepared(p, run, events, t);
    AppendedIsPrepared(p, run[t], n, i);
  }
}
