/** The replica's block list, a singly linked list on the heap, with the state it drives. */
module Blockchains {
  import opened Wrappers
  import opened Ledger
  import opened Validators

  class LinkedBlock {
    const block: Block
    var nextLink: LinkedBlock?

    constructor (block: Block)
      ensures this.block == block && nextLink == null
    {
      this.block := block;
      nextLink := null;
    }
  }

  // ---- fragments for the saver ----

  const BLOC_FRAGMENT_MAX := 4096

  function Min(a: int, b: int): int {
    if a <= b then a else b
  }

  // How many fragments a chain of the given size is cut into.
  function FragmentCount(size: nat): nat {
    (size + BLOC_FRAGMENT_MAX - 1) / BLOC_FRAGMENT_MAX
  }

  function Fragment<T>(chain: seq<T>, k: nat): seq<T>
    requires k < FragmentCount(|chain|)
  {
    chain[k * BLOC_FRAGMENT_MAX..Min((k + 1) * BLOC_FRAGMENT_MAX, |chain|)]
  }

  // All fragments are full but perhaps the last, which is never empty.
  lemma FragmentSize<T>(chain: seq<T>, k: nat)
    requires k < FragmentCount(|chain|)
    ensures if k + 1 < FragmentCount(|chain|) then |Fragment(chain, k)| == 4096 else 0 < |Fragment(chain, k)| <= 4096
    ensures k + 1 == FragmentCount(|chain|) ==> k * 4096 + |Fragment(chain, k)| == |chain|
  {
  }

  ghost function Hashes(blocks: seq<Block>): set<Bytes> {
    set b | b in blocks :: b.hash
  }

  class Blockchain {
    const crypto: Crypto
    const validatorList: Registry
    var firstBlock: LinkedBlock
    var lastBlock: LinkedBlock
    var secLastBlock: LinkedBlock?
    var sizeChain: int
    var existingBlock: set<Bytes>
    var executedTx: set<Bytes>
    var proposer: Proposer

    ghost const members: Members
    ghost var links: seq<LinkedBlock>
    ghost var blocks: seq<Block>

    // The linked list, its end pointers, its size and its hash index all represent blocks.
    ghost predicate ListOk()
      reads this`links, this`blocks, this`firstBlock, this`lastBlock, this`secLastBlock,
            this`sizeChain, this`existingBlock, links
    {
      && |links| == |blocks| > 0
      && (forall i, j :: 0 <= i < j < |links| ==> links[i] != links[j])
      && (forall i :: 0 <= i < |links| ==> links[i].block == blocks[i])
      && (forall i :: 0 <= i < |links| - 1 ==> links[i].nextLink == links[i + 1])
      && links[|links| - 1].nextLink == null
      && firstBlock == links[0]
      && lastBlock == links[|links| - 1]
      && secLastBlock == (if |links| > 1 then links[|links| - 2] else null)
      && sizeChain == |blocks|
      && existingBlock == Hashes(blocks)
    }

    ghost predicate MembersMatch()
      reads this, validatorList
    {
      && MembersOk(members) && validatorList.Valid() && validatorList.nodeList == members.nodes
    }

    // Active set, executed transactions and proposer are functions of the block list.
    ghost predicate Valid()
      reads this, links, validatorList
    {
      && ListOk()
      && MembersMatch()
      && validatorList.isActiveValidatorMap == ActiveAfter(members, blocks)
      && executedTx == ExecutedAfter(blocks)
      && proposer == ProposerAfter(members, blocks)
    }

    constructor (validators: Registry, crypto: Crypto)
      requires validators.Valid() && validators.isActiveValidatorMap != {}
      ensures Valid() && fresh(links)
      ensures blocks == [Genesis(crypto)] && this.crypto == crypto && validatorList == validators
      ensures members == Members(validators.nodeList, validators.isActiveValidatorMap)
    {
      var first := new LinkedBlock(Genesis(crypto));
      firstBlock, lastBlock, secLastBlock, sizeChain := first, first, null, 1;
      existingBlock := {Genesis(crypto).hash};
      executedTx := {};
      proposer := NO_PROPOSER;
      validatorList := validators;
      this.crypto := crypto;
      members := Members(validators.nodeList, validators.isActiveValidatorMap);
      links, blocks := [first], [Genesis(crypto)];
      new;
      assert ActiveAfter(members, blocks[..0]) == members.initial;
      UpdateProposer();
    }

    method AddBlock(b: Block)
      requires ListOk()
      modifies this`lastBlock, this`secLastBlock, this`sizeChain, this`existingBlock,
               this`links, this`blocks, lastBlock
      ensures ListOk() && blocks == old(blocks) + [b]
      ensures fresh(set l | l in links && l !in old(links))
    {
      var link := new LinkedBlock(b);
      secLastBlock := lastBlock;
      lastBlock.nextLink := link;
      lastBlock := link;
      sizeChain := sizeChain + 1;
      existingBlock := existingBlock + {b.hash};
      links := links + [link];
      blocks := blocks + [b];
      assert Hashes(blocks) == old(existingBlock) + {b.hash};
    }

    method Apply(input: Input)
      requires MembersMatch() && input.Command?
      modifies validatorList
      ensures MembersMatch()
      ensures validatorList.isActiveValidatorMap
           == ApplyInput(members.nodes, old(validatorList.isActiveValidatorMap), input)
    {
      if input.order == VARIE_VALID {
        var newSize := |input.newValidatorSet|;
        if validatorList.IsSizeValid(newSize) {
          var updated := validatorList.SetNewListOfValidator(input.newValidatorSet);
        }
      }
    }

    // Every transaction is recorded as executed; commands also take effect.
    method FlushTransaction(b: Block)
      requires MembersMatch()
      modifies this`executedTx, validatorList
      ensures MembersMatch()
      ensures validatorList.isActiveValidatorMap
           == ActiveAfterTxs(members.nodes, old(validatorList.isActiveValidatorMap), b.transactions)
      ensures executedTx == old(executedTx) + TxHashes(b.transactions)
    {
      var txs := b.transactions;
      for j := 0 to |txs|
        invariant MembersMatch()
        invariant validatorList.isActiveValidatorMap
               == ActiveAfterTxs(members.nodes, old(validatorList.isActiveValidatorMap), txs[..j])
        invariant executedTx == old(executedTx) + TxHashes(txs[..j])
      {
        assert txs[..j + 1] == txs[..j] + [txs[j]] && txs[..j + 1][..j] == txs[..j];
        if txs[j].input.Command? {
          Apply(txs[j].input);
        }
        executedTx := executedTx + {txs[j].hash};
      }
      assert txs[..|txs|] == txs;
    }

    method UpdateProposer()
      requires ListOk() && MembersMatch()
      requires validatorList.isActiveValidatorMap == ActiveAfter(members, blocks)
      modifies this`proposer
      ensures proposer == ProposerAfter(members, blocks)
      ensures HasTurn(members.nodes, validatorList.isActiveValidatorMap, blocks[|blocks| - 1].hash, proposer)
    {
      ProposerHasTurn(members, blocks);
      ActiveStaysKnown(members, blocks);
      var last := lastBlock.block;
      var nbVal := validatorList.GetNumberOfValidator();
      var index := 0;
      if nbVal > 0 {
        if |last.hash| > 0 {
          index := last.hash[0] as int % nbVal;
        }
      } else {
        assert false;  // the active set never empties
      }
      proposer := validatorList.GetActiveValidatorIndexOfValue(index);
    }

    method AddUpdatedBlock(b: Block)
      requires Valid()
      modifies this, lastBlock, validatorList
      ensures Valid() && blocks == old(blocks) + [b]
      ensures fresh(set l | l in links && l !in old(links))
    {
      hide HasTurn, ActiveAfterTxs, ProposerAfter, Distinct, KnownKeys, ListOk;
      AddBlock(b);
      assert blocks[..|blocks| - 1] == old(blocks);
      FlushTransaction(b);
      UpdateProposer();
    }

    method IsValidNewBlock(b: Block) returns (ok: bool)
      requires Valid()
      ensures ok <==> ValidNext(crypto, members, blocks, b)
    {
      var last := lastBlock.block;
      ok := last.sequenceNb + 1 == b.sequenceNb
         && last.hash == b.lastHash
         && VerifyBlock(crypto, b)
         && b.proposer == proposer.key;
    }

    // Nodes append only blocks that pass: the chain then stays well formed for ever.
    method AppendIfValid(b: Block) returns (ok: bool)
      requires Valid() && ChainOk(crypto, members, blocks)
      modifies this, lastBlock, validatorList
      ensures Valid() && ChainOk(crypto, members, blocks)
      ensures ok <==> ValidNext(crypto, members, old(blocks), b)
      ensures blocks == if ok then old(blocks) + [b] else old(blocks)
    {
      ok := IsValidNewBlock(b);
      if ok {
        ChainGrows(crypto, members, blocks, b);
        AddUpdatedBlock(b);
      }
    }

    method GetSecLastBlock() returns (b: Block)
      requires Valid()
      ensures b == if |blocks| > 1 then blocks[|blocks| - 2] else blocks[0]
    {
      if secLastBlock == null {
        return lastBlock.block;
      }
      return secLastBlock.block;
    }

    // None stands for the panic on an index outside the chain.
    method GetBlock(id: int) returns (r: Option<Block>)
      requires Valid()
      ensures r == if 0 <= id < |blocks| then Some(blocks[id]) else None
    {
      if id < 0 || id >= sizeChain {
        return None;
      }
      var current := firstBlock;
      for i := 0 to id
        invariant current == links[i]
      {
        current := current.nextLink;
      }
      return Some(current.block);
    }

    method GetBlocs() returns (copy: seq<Block>)
      requires Valid()
      ensures copy == blocks
    {
      copy := [];
      var pointer: LinkedBlock? := firstBlock;
      for i := 0 to sizeChain
        invariant copy == blocks[..i]
        invariant pointer == if i < |links| then links[i] else null
      {
        copy := copy + [pointer.block];
        pointer := pointer.nextLink;
      }
    }

    method ExistBlockOfHash(hash: Bytes) returns (r: bool)
      requires Valid()
      ensures r <==> exists i :: 0 <= i < |blocks| && blocks[i].hash == hash
    {
      r := hash in existingBlock;
    }
 
    // The values sent on the channel before the closing nil.
    method GetFragmentBlocks() returns (fragments: seq<seq<Block>>)
      requires Valid()
      ensures |fragments| == FragmentCount(|blocks|)
      ensures forall k :: 0 <= k < |fragments| ==> fragments[k] == Fragment(blocks, k)
    {
      fragments := [];
      var pointer: LinkedBlock? := firstBlock;
      var done := 0;
      while done < sizeChain
        invariant done == Min(|fragments| * BLOC_FRAGMENT_MAX, |blocks|)
        invariant |fragments| <= FragmentCount(|blocks|)
        invariant forall k :: 0 <= k < |fragments| ==> fragments[k] == Fragment(blocks, k)
        invariant pointer == if done < |links| then links[done] else null
      {
        var blockFragmentSize := Min(BLOC_FRAGMENT_MAX, sizeChain - done);
        var fragment: seq<Block> := [];
        for j := 0 to blockFragmentSize
          invariant fragment == blocks[done..done + j]
          invariant pointer == if done + j < |links| then links[done + j] else null
        {
          fragment := fragment + [pointer.block];
          pointer := pointer.nextLink;
        }
        fragments := fragments + [fragment];
        done := done + blockFragmentSize;
      }
    }
  }
}
