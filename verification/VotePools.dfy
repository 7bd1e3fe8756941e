/** The prepare and commit pools (one text, two names): votes per block hash, confirmed lazily. */
module VotePools {
  import opened Wrappers
  import opened Ledger

  datatype Vote = Vote(blockHash: Bytes, publicKey: Key, signature: Bytes)

  // Votes received for one hash, by signature.
  datatype Votes = Votes(unconfirmed: map<Bytes, Key>, confirmed: map<Bytes, Key>)

  const NO_VOTES := Votes(map[], map[])

  type Pool = map<Bytes, Votes>

  // ---- the steps as functions ----

  function VotesOf(pool: Pool, hash: Bytes): Votes {
    if hash in pool then pool[hash] else NO_VOTES
  }

  function Added(pool: Pool, v: Vote): Pool {
    var all := VotesOf(pool, v.blockHash);
    pool[v.blockHash := if v.signature in all.confirmed then all
                        else all.(unconfirmed := all.unconfirmed[v.signature := v.publicKey])]
  }

  // confirm: votes of active validators are kept, the other unconfirmed votes are dropped.
  function Confirmed(all: Votes, active: set<Key>): Votes {
    all.(unconfirmed := map[],
         confirmed := all.confirmed
                      + map s | s in all.unconfirmed && all.unconfirmed[s] in active :: all.unconfirmed[s])
  }

  function Counted(pool: Pool, hash: Bytes, active: set<Key>): Pool {
    if hash in pool then pool[hash := Confirmed(pool[hash], active)] else pool
  }

  // What GetNbPrepareOfHashOfActive would return.
  function ActiveCount(pool: Pool, hash: Bytes, active: set<Key>): nat {
    |VotesOf(Counted(pool, hash, active), hash).confirmed|
  }

  class VotePool {
    var pool: Pool

    constructor ()
      ensures pool == map[]
    {
      pool := map[];
    }

    method Add(v: Vote)
      modifies this
      ensures pool == Added(old(pool), v)
    {
      var hash := v.blockHash;
      if hash !in pool {
        pool := pool[hash := NO_VOTES];
      }
      if v.signature !in pool[hash].confirmed {
        pool := pool[hash := pool[hash].(unconfirmed := pool[hash].unconfirmed[v.signature := v.publicKey])];
      }
    }

    method Confirm(hash: Bytes, active: set<Key>)
      requires hash in pool
      modifies this
      ensures pool == old(pool)[hash := Confirmed(old(pool)[hash], active)]
    {
      var all := pool[hash];
      var confirmed := all.confirmed;
      var todo := all.unconfirmed.Keys;
      while todo != {}
        invariant todo <= all.unconfirmed.Keys
        invariant confirmed == all.confirmed
                + map s | s in all.unconfirmed.Keys - todo && all.unconfirmed[s] in active :: all.unconfirmed[s]
      {
        var key :| key in todo;
        todo := todo - {key};
        if all.unconfirmed[key] in active {
          confirmed := confirmed[key := all.unconfirmed[key]];
        }
      }
      assert confirmed == Confirmed(all, active).confirmed;
      pool := pool[hash := all.(unconfirmed := map[], confirmed := confirmed)];
    }

    method GetNbOfHashOfActive(hash: Bytes, active: set<Key>) returns (n: nat)
      modifies this
      ensures pool == Counted(old(pool), hash, active)
      ensures n == ActiveCount(old(pool), hash, active)
    {
      if hash !in pool {
        return 0;
      }
      Confirm(hash, active);
      return |pool[hash].confirmed|;
    }

    method Remove(hash: Bytes)
      modifies this
      ensures pool == old(pool) - {hash}
    {
      pool := pool - {hash};
    }
  }

  // ---- runs ----

  datatype Op = Receive(v: Vote) | Count(hash: Bytes)

  function Apply(pool: Pool, op: Op, active: set<Key>): Pool {
    match op
    case Receive(v) => Added(pool, v)
    case Count(h) => Counted(pool, h, active)
  }

  function RunOps(ops: seq<Op>, active: set<Key>): Pool {
    if ops == [] then map[] else Apply(RunOps(ops[..|ops| - 1], active), ops[|ops| - 1], active)
  }

  function VotesIn(ops: seq<Op>): set<Vote> {
    set i | 0 <= i < |ops| && ops[i].Receive? :: ops[i].v
  }

  ghost predicate OneKeyPerSignature(votes: set<Vote>) {
    forall v, w :: v in votes && w in votes && v.signature == w.signature ==> v.publicKey == w.publicKey
  }

  // The signatures for hash that active validators sent.
  function ActiveSignatures(votes: set<Vote>, hash: Bytes, active: set<Key>): set<Bytes> {
    set v | v in votes && v.blockHash == hash && v.publicKey in active :: v.signature
  }

  // The pool after a run, seen through its next count, holds exactly the active votes.
  ghost predicate Represents(all: Votes, votes: set<Vote>, hash: Bytes, active: set<Key>) {
    && (forall s :: s in all.confirmed ==> Vote(hash, all.confirmed[s], s) in votes && all.confirmed[s] in active)
    && (forall s :: s in all.unconfirmed ==> Vote(hash, all.unconfirmed[s], s) in votes && s !in all.confirmed)
    && (forall k, s :: Vote(hash, k, s) in votes && k in active ==> s in all.confirmed || s in all.unconfirmed)
  }

  lemma ApplyRepresents(pool: Pool, votes: set<Vote>, op: Op, hash: Bytes, active: set<Key>)
    requires Represents(VotesOf(pool, hash), votes, hash, active)
    requires OneKeyPerSignature(votes + (if op.Receive? then {op.v} else {}))
    ensures
      Represents(VotesOf(Apply(pool, op, active), hash), votes + (if op.Receive? then {op.v} else {}), hash, active)
  {
    if op.Receive? && op.v.blockHash == hash {
      assert op.v == Vote(hash, op.v.publicKey, op.v.signature);
    }
  }

  lemma {:induction false} RunRepresents(ops: seq<Op>, active: set<Key>, hash: Bytes)
    requires OneKeyPerSignature(VotesIn(ops))
    ensures Represents(VotesOf(RunOps(ops, active), hash), VotesIn(ops), hash, active)
  {
    if ops != [] {
      var before, op := ops[..|ops| - 1], ops[|ops| - 1];
      assert VotesIn(ops) == VotesIn(before) + (if op.Receive? then {op.v} else {}) by {
        assert ops == before + [op];
      }
      RunRepresents(before, active, hash);
      ApplyRepresents(RunOps(before, active), VotesIn(before), op, hash, active);
    }
  }

  // The count depends only on which votes arrived: not on their order, their repetition or
  // the moments at which earlier counts were taken.
  lemma CountIsActiveSignatures(ops: seq<Op>, active: set<Key>, hash: Bytes)
    requires OneKeyPerSignature(VotesIn(ops))
    ensures ActiveCount(RunOps(ops, active), hash, active) == |ActiveSignatures(VotesIn(ops), hash, active)|
  {
    RunRepresents(ops, active, hash);
    var all := VotesOf(RunOps(ops, active), hash);
    var counted := VotesOf(Counted(RunOps(ops, active), hash, active), hash);
    assert counted == if hash in RunOps(ops, active) then Confirmed(all, active) else all;
    forall s
      ensures s in counted.confirmed <==> s in ActiveSignatures(VotesIn(ops), hash, active)
    {
      if v :| v in VotesIn(ops) && v.blockHash == hash && v.publicKey in active && v.signature == s {
        assert v == Vote(hash, v.publicKey, s);
      }
    }
    assert counted.confirmed.Keys == ActiveSignatures(VotesIn(ops), hash, active);
    assert |counted.confirmed| == |counted.confirmed.Keys|;
  }

  lemma Confluent(ops: seq<Op>, ops': seq<Op>, active: set<Key>, hash: Bytes)
    requires VotesIn(ops) == VotesIn(ops') && OneKeyPerSignature(VotesIn(ops))
    ensures ActiveCount(RunOps(ops, active), hash, active) == ActiveCount(RunOps(ops', active), hash, active)
  {
    CountIsActiveSignatures(ops, active, hash);
    CountIsActiveSignatures(ops', active, hash);
  }

  // Once counted, the votes received so far count under every later active set as they did then:
  // those of inactive keys are gone, the confirmed ones stay.
  lemma CountIsFinal(pool: Pool, hash: Bytes, active: set<Key>, later: set<Key>)
    ensures ActiveCount(Counted(pool, hash, active), hash, later) == ActiveCount(pool, hash, active)
    ensures VotesOf(Counted(Counted(pool, hash, active), hash, later), hash).confirmed
         == VotesOf(Counted(pool, hash, active), hash).confirmed
  {
    var once := VotesOf(Counted(pool, hash, active), hash);
    if hash in pool {
      assert once.unconfirmed == map[];
      assert Confirmed(once, later).confirmed == once.confirmed;
    }
  }

  // Short of removal no step, under any active set, loses a confirmed vote.
  lemma ConfirmedStays(pool: Pool, op: Op, active: set<Key>, hash: Bytes, s: Bytes)
    requires s in VotesOf(pool, hash).confirmed && s !in VotesOf(pool, hash).unconfirmed
    ensures var after := VotesOf(Apply(pool, op, active), hash);
      s in after.confirmed && after.confirmed[s] == VotesOf(pool, hash).confirmed[s] && s !in after.unconfirmed
  {
  }
}
