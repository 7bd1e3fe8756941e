/**
 Blocks and what a list of blocks determines: the active validators, the executed
 transactions, the elected proposer and which block may come next.
 */
module Ledger {
  import opened Wrappers

  type Key = Bytes

  datatype Input =
    | Data(bytes: Bytes)
    | Command(order: int, variation: int, newValidatorSet: seq<Key>)

  const VARIE_VALID := 0

  datatype Transaction = Transaction(hash: Bytes, signature: Bytes, from: Key, input: Input, timestamp: int)

  datatype Block = Block(lastHash: Bytes, hash: Bytes, proposer: Key, timestamp: int,
                         sequenceNb: int, signature: Bytes, transactions: seq<Transaction>)

  // Hashing, signing and transaction verification are parameters.
  datatype Crypto = Crypto(
    hashBlock: (int, Bytes, seq<Transaction>) -> Bytes,
    sign: (Key, Bytes) -> Bytes,
    verifyTransaction: Transaction -> bool)

  // Hashes are collision free and never empty; each key has one signature per message, and
  // no signature serves two keys or two messages.
  ghost predicate Sound(c: Crypto) {
    && (forall t, l, x, t', l', x' ::
          c.hashBlock(t, l, x) == c.hashBlock(t', l', x') ==> t == t' && l == l' && x == x')
    && (forall t, l, x :: c.hashBlock(t, l, x) != [])
    && (forall k, m, k', m' :: c.sign(k, m) == c.sign(k', m') ==> k == k' && m == m')
  }

  // time.Time{}.UnixNano()
  const GENESIS_TIME := -6795364578871345152

  function Genesis(c: Crypto): Block {
    Block([], c.hashBlock(GENESIS_TIME, [], []), [], GENESIS_TIME, 0, [], [])
  }

  predicate VerifyBlock(c: Crypto, b: Block) {
    && b.hash == c.hashBlock(b.timestamp, b.lastHash, b.transactions)
    && b.signature == c.sign(b.proposer, b.hash)
    && forall i :: 0 <= i < |b.transactions| ==> c.verifyTransaction(b.transactions[i])
  }

  function CreateBlock(c: Crypto, last: Block, now: int, txs: seq<Transaction>, wallet: Key): Block {
    var h := c.hashBlock(now, last.hash, txs);
    Block(last.hash, h, wallet, now, last.sequenceNb + 1, c.sign(wallet, h), txs)
  }

  // ---- the membership that is fixed for a network ----

  // All node keys, and the validators active before the first command.
  datatype Members = Members(nodes: seq<Key>, initial: set<Key>)

  predicate Distinct<T(==)>(s: seq<T>) {
    forall i, j :: 0 <= i < j < |s| ==> s[i] != s[j]
  }

  predicate KnownKeys(nodes: seq<Key>, keys: set<Key>) {
    forall k :: k in keys ==> k in nodes
  }

  predicate MembersOk(m: Members) {
    Distinct(m.nodes) && KnownKeys(m.nodes, m.initial) && m.initial != {}
  }

  // ---- folds over the block list ----

  // A validator change takes effect only if its size is admissible and every key is a node.
  function ApplyInput(nodes: seq<Key>, active: set<Key>, input: Input): set<Key> {
    if input.Command? && input.order == VARIE_VALID
       && 4 <= |input.newValidatorSet| <= |nodes|
       && forall k :: k in input.newValidatorSet ==> k in nodes
    then set k | k in input.newValidatorSet
    else active
  }

  function ActiveAfterTxs(nodes: seq<Key>, active: set<Key>, txs: seq<Transaction>): set<Key> {
    if txs == [] then active
    else ApplyInput(nodes, ActiveAfterTxs(nodes, active, txs[..|txs| - 1]), txs[|txs| - 1].input)
  }

  function ActiveAfter(m: Members, blocks: seq<Block>): set<Key> {
    if blocks == [] then m.initial
    else ActiveAfterTxs(m.nodes, ActiveAfter(m, blocks[..|blocks| - 1]), blocks[|blocks| - 1].transactions)
  }

  function TxHashes(txs: seq<Transaction>): set<Bytes> {
    set t | t in txs :: t.hash
  }

  function ExecutedAfter(blocks: seq<Block>): set<Bytes> {
    if blocks == [] then {}
    else ExecutedAfter(blocks[..|blocks| - 1]) + TxHashes(blocks[|blocks| - 1].transactions)
  }

  // Original ids of the active validators, in increasing order.
  function ActiveIndices(nodes: seq<Key>, active: set<Key>): seq<int> {
    if nodes == [] then []
    else
      var n := |nodes| - 1;
      ActiveIndices(nodes[..n], active) + (if nodes[n] in active then [n] else [])
  }

  datatype Proposer = Proposer(id: int, key: Key)

  const NO_PROPOSER := Proposer(-1, [])

  // The validator whose turn the first byte of the last hash selects.
  function Elect(nodes: seq<Key>, active: set<Key>, lastHash: Bytes): Proposer
    requires Distinct(nodes) && KnownKeys(nodes, active)
  {
    if active == {} then NO_PROPOSER
    else
      ActiveIndicesCount(nodes, active);
      var turn := if lastHash == [] then 0 else lastHash[0] as int % |active|;
      var id := ActiveIndices(nodes, active)[turn];
      ActiveIndicesListed(nodes, active, turn);
      Proposer(id, nodes[id])
  }

  function ProposerAfter(m: Members, blocks: seq<Block>): Proposer
    requires MembersOk(m) && blocks != []
  {
    ActiveStaysKnown(m, blocks);
    Elect(m.nodes, ActiveAfter(m, blocks), blocks[|blocks| - 1].hash)
  }

  // IsValidNewBlock on top of blocks.
  predicate ValidNext(c: Crypto, m: Members, blocks: seq<Block>, b: Block)
    requires MembersOk(m) && blocks != []
  {
    var last := blocks[|blocks| - 1];
    && last.sequenceNb + 1 == b.sequenceNb
    && last.hash == b.lastHash
    && VerifyBlock(c, b)
    && b.proposer == ProposerAfter(m, blocks).key
  }

  // A chain every block of which passed IsValidNewBlock when it was appended.
  ghost predicate ChainOk(c: Crypto, m: Members, blocks: seq<Block>)
    requires MembersOk(m)
  {
    && blocks != []
    && blocks[0] == Genesis(c)
    && forall i :: 1 <= i < |blocks| ==> ValidNext(c, m, blocks[..i], blocks[i])
  }

  // ---- lemmas ----

  lemma {:induction false} ActiveIndicesListed(nodes: seq<Key>, active: set<Key>, k: nat)
    requires k < |ActiveIndices(nodes, active)|
    ensures var idx := ActiveIndices(nodes, active);
      && 0 <= idx[k] < |nodes| && nodes[idx[k]] in active
      && forall j :: 0 <= j < k ==> idx[j] < idx[k]
  {
    var n := |nodes| - 1;
    var before := ActiveIndices(nodes[..n], active);
    if k < |before| {
      ActiveIndicesListed(nodes[..n], active, k);
    } else {
      forall j | 0 <= j < k
        ensures before[j] < n
      {
        ActiveIndicesListed(nodes[..n], active, j);
      }
    }
  }

  lemma {:induction false} ActiveIndicesComplete(nodes: seq<Key>, active: set<Key>, i: nat)
    requires i < |nodes| && nodes[i] in active
    ensures i in ActiveIndices(nodes, active)
  {
    var n := |nodes| - 1;
    if i < n {
      ActiveIndicesComplete(nodes[..n], active, i);
    }
  }

  lemma {:induction false} ActiveIndicesCount(nodes: seq<Key>, active: set<Key>)
    requires Distinct(nodes) && KnownKeys(nodes, active)
    ensures |ActiveIndices(nodes, active)| == |active|
  {
    if nodes == [] {
      assert active == {};
    } else {
      var n := |nodes| - 1;
      var rest := active - {nodes[n]};
      forall k | k in rest
        ensures k in nodes[..n]
      {
        assert k in nodes;
      }
      ActiveIndicesCount(nodes[..n], rest);
      SameIndices(nodes[..n], active, rest);
    }
  }

  lemma {:induction false} SameIndices(nodes: seq<Key>, a: set<Key>, b: set<Key>)
    requires forall i :: 0 <= i < |nodes| ==> (nodes[i] in a <==> nodes[i] in b)
    ensures ActiveIndices(nodes, a) == ActiveIndices(nodes, b)
  {
    if nodes != [] {
      SameIndices(nodes[..|nodes| - 1], a, b);
    }
  }

  lemma ApplyKnown(nodes: seq<Key>, active: set<Key>, input: Input)
    requires KnownKeys(nodes, active) && active != {}
    ensures KnownKeys(nodes, ApplyInput(nodes, active, input)) && ApplyInput(nodes, active, input) != {}
  {
    if ApplyInput(nodes, active, input) != active {
      assert input.newValidatorSet[0] in ApplyInput(nodes, active, input);
    }
  }

  lemma {:induction false} ActiveTxsKnown(nodes: seq<Key>, active: set<Key>, txs: seq<Transaction>)
    requires KnownKeys(nodes, active) && active != {}
    ensures KnownKeys(nodes, ActiveAfterTxs(nodes, active, txs)) && ActiveAfterTxs(nodes, active, txs) != {}
  {
    if txs != [] {
      ActiveTxsKnown(nodes, active, txs[..|txs| - 1]);
      ApplyKnown(nodes, ActiveAfterTxs(nodes, active, txs[..|txs| - 1]), txs[|txs| - 1].input);
    }
  }

  // Whatever blocks are appended, the active validators are known nodes and never run out.
  lemma {:induction false} ActiveStaysKnown(m: Members, blocks: seq<Block>)
    requires MembersOk(m)
    ensures KnownKeys(m.nodes, ActiveAfter(m, blocks)) && ActiveAfter(m, blocks) != {}
  {
    if blocks != [] {
      ActiveStaysKnown(m, blocks[..|blocks| - 1]);
      ActiveTxsKnown(m.nodes, ActiveAfter(m, blocks[..|blocks| - 1]), blocks[|blocks| - 1].transactions);
    }
  }

  // ---- which command decides ----

  predicate TakesEffect(nodes: seq<Key>, t: Transaction) {
    && t.input.Command? && t.input.order == 0 && 4 <= |t.input.newValidatorSet| <= |nodes|
    && forall k :: k in t.input.newValidatorSet ==> k in nodes
  }

  ghost predicate NoneTakesEffect(nodes: seq<Key>, txs: seq<Transaction>) {
    forall j :: 0 <= j < |txs| ==> !TakesEffect(nodes, txs[j])
  }

  ghost predicate LastToTakeEffect(nodes: seq<Key>, txs: seq<Transaction>, j: int) {
    && 0 <= j < |txs| && TakesEffect(nodes, txs[j])
    && forall k :: j < k < |txs| ==> !TakesEffect(nodes, txs[k])
  }

  lemma {:induction false} LastTxDecides(nodes: seq<Key>, active: set<Key>, txs: seq<Transaction>)
    ensures NoneTakesEffect(nodes, txs) ==> ActiveAfterTxs(nodes, active, txs) == active
    ensures forall j :: LastToTakeEffect(nodes, txs, j) ==>
              ActiveAfterTxs(nodes, active, txs) == set k | k in txs[j].input.newValidatorSet
  {
    if txs != [] {
      var n := |txs| - 1;
      LastTxDecides(nodes, active, txs[..n]);
      forall j | LastToTakeEffect(nodes, txs, j)
        ensures ActiveAfterTxs(nodes, active, txs) == set k | k in txs[j].input.newValidatorSet
      {
        if j < n {
          assert LastToTakeEffect(nodes, txs[..n], j);
        }
      }
    }
  }

  // The validators active after a block list are those of the last command that takes effect
  // anywhere in it, and the initial ones without such a command.
  lemma {:induction false} LastCommandDecides(m: Members, blocks: seq<Block>)
    ensures (forall i :: 0 <= i < |blocks| ==> NoneTakesEffect(m.nodes, blocks[i].transactions)) ==>
              ActiveAfter(m, blocks) == m.initial
    ensures forall i, j ::
              && 0 <= i < |blocks| && LastToTakeEffect(m.nodes, blocks[i].transactions, j)
              && (forall l :: i < l < |blocks| ==> NoneTakesEffect(m.nodes, blocks[l].transactions)) ==>
                ActiveAfter(m, blocks) == set k | k in blocks[i].transactions[j].input.newValidatorSet
  {
    if blocks != [] {
      hide NoneTakesEffect, LastToTakeEffect, ActiveAfterTxs;
      var n := |blocks| - 1;
      LastCommandDecides(m, blocks[..n]);
      LastTxDecides(m.nodes, ActiveAfter(m, blocks[..n]), blocks[n].transactions);
      forall i, j |
        && 0 <= i < |blocks| && LastToTakeEffect(m.nodes, blocks[i].transactions, j)
        && (forall l :: i < l < |blocks| ==> NoneTakesEffect(m.nodes, blocks[l].transactions))
        ensures ActiveAfter(m, blocks) == set k | k in blocks[i].transactions[j].input.newValidatorSet
      {
        if i < n {
          assert blocks[..n][i] == blocks[i] && NoneTakesEffect(m.nodes, blocks[n].transactions);
        }
      }
    }
  }

  // Executed are the transactions of all blocks.
  lemma {:induction false} ExecutedIff(blocks: seq<Block>, h: Bytes)
    ensures h in ExecutedAfter(blocks)
       <==> exists i, j :: 0 <= i < |blocks| && 0 <= j < |blocks[i].transactions| && blocks[i].transactions[j].hash == h
  {
    if blocks != [] {
      var n := |blocks| - 1;
      ExecutedIff(blocks[..n], h);
      assert forall i :: 0 <= i < n ==> blocks[..n][i] == blocks[i];
    }
  }

  // The elected proposer is a known node, named by its own id, and currently active.
  lemma ProposerIsActive(m: Members, blocks: seq<Block>)
    requires MembersOk(m) && blocks != []
    ensures var p := ProposerAfter(m, blocks);
      0 <= p.id < |m.nodes| && m.nodes[p.id] == p.key && p.key in ActiveAfter(m, blocks)
  {
    var active, last := ActiveAfter(m, blocks), blocks[|blocks| - 1].hash;
    ActiveStaysKnown(m, blocks);
    ActiveIndicesCount(m.nodes, active);
    ActiveIndicesListed(m.nodes, active, if last == [] then 0 else last[0] as int % |active|);
  }

  // The ids below id that are active.
  function ActiveBelow(nodes: seq<Key>, active: set<Key>, id: int): set<int> {
    set i | 0 <= i < id && i < |nodes| && nodes[i] in active
  }

  lemma {:induction false} AllBelow(nodes: seq<Key>, active: set<Key>)
    ensures |ActiveBelow(nodes, active, |nodes|)| == |ActiveIndices(nodes, active)|
  {
    if nodes != [] {
      var n := |nodes| - 1;
      AllBelow(nodes[..n], active);
      assert ActiveBelow(nodes, active, n + 1)
          == ActiveBelow(nodes[..n], active, n) + if nodes[n] in active then {n} else {};
    }
  }

  lemma {:induction false} IndexHasRank(nodes: seq<Key>, active: set<Key>, k: nat)
    requires k < |ActiveIndices(nodes, active)|
    ensures |ActiveBelow(nodes, active, ActiveIndices(nodes, active)[k])| == k
  {
    var n := |nodes| - 1;
    var before := ActiveIndices(nodes[..n], active);
    if k < |before| {
      IndexHasRank(nodes[..n], active, k);
      ActiveIndicesListed(nodes[..n], active, k);
      assert ActiveBelow(nodes, active, before[k]) == ActiveBelow(nodes[..n], active, before[k]);
    } else {
      AllBelow(nodes[..n], active);
      assert ActiveBelow(nodes, active, n) == ActiveBelow(nodes[..n], active, n);
    }
  }

  // The turn goes round: p is active, and as many active validators come before it as the
  // first byte of the last hash says, modulo their number.
  predicate HasTurn(nodes: seq<Key>, active: set<Key>, lastHash: Bytes, p: Proposer) {
    && 0 <= p.id < |nodes| && nodes[p.id] == p.key && p.key in active
    && |set i | 0 <= i < p.id && nodes[i] in active| == if lastHash == [] then 0 else lastHash[0] as int % |active|
  }

  lemma ProposerHasTurn(m: Members, blocks: seq<Block>)
    requires MembersOk(m) && blocks != []
    ensures HasTurn(m.nodes, ActiveAfter(m, blocks), blocks[|blocks| - 1].hash, ProposerAfter(m, blocks))
  {
    var p := ProposerAfter(m, blocks);
    var active, last := ActiveAfter(m, blocks), blocks[|blocks| - 1].hash;
    ActiveStaysKnown(m, blocks);
    ActiveIndicesCount(m.nodes, active);
    ProposerIsActive(m, blocks);
    IndexHasRank(m.nodes, active, if last == [] then 0 else last[0] as int % |active|);
    assert (set i | 0 <= i < p.id && m.nodes[i] in active) == ActiveBelow(m.nodes, active, p.id);
  }

  lemma ChainGrows(c: Crypto, m: Members, blocks: seq<Block>, b: Block)
    requires MembersOk(m) && ChainOk(c, m, blocks) && ValidNext(c, m, blocks, b)
    ensures ChainOk(c, m, blocks + [b])
  {
    var longer := blocks + [b];
    forall i | 1 <= i < |longer|
      ensures ValidNext(c, m, longer[..i], longer[i])
    {
      assert longer[..i] == blocks[..i];
      assert i == |blocks| ==> blocks[..i] == blocks;
    }
  }

  lemma ChainPrefix(c: Crypto, m: Members, blocks: seq<Block>, n: nat)
    requires MembersOk(m) && ChainOk(c, m, blocks) && 0 < n <= |blocks|
    ensures ChainOk(c, m, blocks[..n])
  {
    forall i | 1 <= i < n
      ensures ValidNext(c, m, blocks[..n][..i], blocks[..n][i])
    {
      assert blocks[..n][..i] == blocks[..i];
    }
  }

  // Block i carries number i, links to block i-1 and was proposed by the node elected from
  // the blocks before it.
  lemma {:induction false} ChainShape(c: Crypto, m: Members, blocks: seq<Block>, i: nat)
    requires MembersOk(m) && ChainOk(c, m, blocks) && i < |blocks|
    ensures blocks[i].sequenceNb == i
    ensures blocks[i].hash == c.hashBlock(blocks[i].timestamp, blocks[i].lastHash, blocks[i].transactions)
    ensures i > 0 ==>
      && blocks[i].lastHash == blocks[i - 1].hash
      && blocks[i].proposer == ProposerAfter(m, blocks[..i]).key
      && blocks[i].signature == c.sign(blocks[i].proposer, blocks[i].hash)
  {
    if i > 0 {
      ChainShape(c, m, blocks, i - 1);
      assert ValidNext(c, m, blocks[..i], blocks[i]);
    }
  }

  // Two valid blocks with one hash on top of one chain are the same block, although the hash
  // covers neither number, proposer nor signature.
  lemma SameHashSameBlock(c: Crypto, m: Members, blocks: seq<Block>, a: Block, b: Block)
    requires Sound(c) && MembersOk(m) && blocks != []
    requires ValidNext(c, m, blocks, a) && ValidNext(c, m, blocks, b)
    requires a.hash == b.hash
    ensures a == b
  {
  }

  // The hash of the last block determines the whole chain.
  lemma {:induction false} TipDeterminesChain(c: Crypto, m: Members, xs: seq<Block>, ys: seq<Block>)
    requires Sound(c) && MembersOk(m) && ChainOk(c, m, xs) && ChainOk(c, m, ys)
    requires xs[|xs| - 1].hash == ys[|ys| - 1].hash
    ensures xs == ys
    decreases |xs|
  {
    var x, y := |xs| - 1, |ys| - 1;
    ChainTip(c, m, xs);
    ChainTip(c, m, ys);
    if x > 0 && y > 0 {
      hide ChainOk, ProposerAfter;
      ChainPrefix(c, m, xs, x);
      ChainPrefix(c, m, ys, y);
      TipDeterminesChain(c, m, xs[..x], ys[..y]);
      SameHashSameBlock(c, m, xs[..x], xs[x], ys[y]);
    }
  }

  // A last block is the genesis block, or hashes its predecessor's non-empty hash.
  lemma ChainTip(c: Crypto, m: Members, blocks: seq<Block>)
    requires Sound(c) && MembersOk(m) && ChainOk(c, m, blocks)
    ensures var n := |blocks| - 1; var last := blocks[n];
      && last.hash == c.hashBlock(last.timestamp, last.lastHash, last.transactions)
      && (n == 0 ==> blocks == [Genesis(c)])
      && (n > 0 ==> last.lastHash != [] && last.lastHash == blocks[n - 1].hash
                    && ValidNext(c, m, blocks[..n], last) && blocks == blocks[..n] + [last])
  {
    hide VerifyBlock, ProposerAfter, ValidNext;
    var n := |blocks| - 1;
    ChainShape(c, m, blocks, n);
    assert blocks == blocks[..n] + [blocks[n]];
    if n > 0 {
      ChainShape(c, m, blocks, n - 1);
      assert ValidNext(c, m, blocks[..n], blocks[n]);
    }
  }

  // What the elected wallet creates on top of the last block is accepted there.
  lemma CreatedBlockIsValid(c: Crypto, m: Members, blocks: seq<Block>, now: int, txs: seq<Transaction>, wallet: Key)
    requires MembersOk(m) && blocks != []
    ensures ValidNext(c, m, blocks, CreateBlock(c, blocks[|blocks| - 1], now, txs, wallet))
       <==> wallet == ProposerAfter(m, blocks).key
            && forall i :: 0 <= i < |txs| ==> c.verifyTransaction(txs[i])
  {
  }
}
