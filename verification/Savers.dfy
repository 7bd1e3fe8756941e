/** The incremental multi-file saver: each save rewrites only from the previously last file on. */
module Savers {
  import opened Wrappers
  import opened Ledger
  import opened Blockchains

  // File number to the blocks it holds; file N is named <saveFile>_N.
  type Disk = map<nat, seq<Block>>

  // What a save leaves on disk.  start is the number of files the previous save ended with.
  ghost predicate Saved(disk: Disk, start: nat, chain: seq<Block>, disk': Disk) {
    forall k: nat ::
      if (start <= 1 || start - 1 <= k) && k < FragmentCount(|chain|)
      then k in disk' && disk'[k] == Fragment(chain, k)
      else (k in disk' <==> k in disk) && (k in disk ==> disk'[k] == disk[k])
  }

  class Saver {
    var multiPrev: nat
    var disk: Disk

    constructor ()
      ensures multiPrev == 0 && disk == map[]
    {
      multiPrev, disk := 0, map[];
    }

    // With more files counted before than the chain now fills, the channel would be read past
    // its closing nil.
    method WriteMultipleFile(chain: Blockchain)
      requires chain.Valid()
      requires multiPrev <= FragmentCount(|chain.blocks|)
      modifies this
      ensures multiPrev == FragmentCount(|chain.blocks|)
      ensures Saved(old(disk), old(multiPrev), chain.blocks, disk)
    {
      var sent := chain.GetFragmentBlocks();
      var start := multiPrev;
      var n := 0;
      while n + 1 < start
        invariant n <= |sent| && (n == 0 || n + 1 <= start)
      {
        n := n + 1;
      }
      while n < |sent|
        invariant n <= |sent|
        invariant forall k: nat ::
          if (start <= 1 || start - 1 <= k) && k < n
          then k in disk && disk[k] == Fragment(chain.blocks, k)
          else (k in disk <==> k in old(disk)) && (k in disk ==> disk[k] == old(disk)[k])
      {
        disk := disk[n := sent[n]];
        n := n + 1;
      }
      multiPrev := n;
    }
  }

  // ---- runs ----

  // saved is the chain as the last save saw it.
  datatype State = State(chain: seq<Block>, disk: Disk, multiPrev: nat, saved: seq<Block>)

  datatype Event = Grow(b: Block) | Save

  ghost predicate Step(s: State, e: Event, s': State) {
    match e
    case Grow(b) => s' == s.(chain := s.chain + [b])
    case Save =>
      && Saved(s.disk, s.multiPrev, s.chain, s'.disk)
      && s' == State(s.chain, s'.disk, FragmentCount(|s.chain|), s.chain)
  }

  ghost predicate IsRun(run: seq<State>, events: seq<Event>) {
    && |run| == |events| + 1
    && run[0].disk == map[] && run[0].multiPrev == 0 && run[0].saved == []
    && forall i :: 0 <= i < |events| ==> Step(run[i], events[i], run[i + 1])
  }

  ghost predicate Inv(s: State) {
    && s.saved <= s.chain
    && s.multiPrev == FragmentCount(|s.saved|)
    && forall k: nat :: k < s.multiPrev ==> k in s.disk && s.disk[k] == Fragment(s.saved, k)
  }

  // Files 0..n-1 end to end.
  ghost function Concatenated(disk: Disk, n: nat): seq<Block>
    requires forall k: nat :: k < n ==> k in disk
  {
    if n == 0 then [] else Concatenated(disk, n - 1) + disk[n - 1]
  }

  // A full file never changes again: a fragment that is not the last has the same blocks in
  // every longer chain.
  lemma FullFragmentStays(short: seq<Block>, long: seq<Block>, k: nat)
    requires short <= long && k + 1 < FragmentCount(|short|)
    ensures k < FragmentCount(|long|) && Fragment(short, k) == Fragment(long, k)
  {
  }

  lemma SaveKeepsInv(s: State, s': State)
    requires Inv(s) && Step(s, Save, s')
    ensures Inv(s')
  {
    forall k: nat | k < s'.multiPrev
      ensures k in s'.disk && s'.disk[k] == Fragment(s'.saved, k)
    {
      if k + 1 < s.multiPrev {
        FullFragmentStays(s.saved, s.chain, k);
      }
    }
  }

  lemma {:induction false} RunKeepsInv(run: seq<State>, events: seq<Event>, t: nat)
    requires IsRun(run, events) && t < |run|
    ensures Inv(run[t])
  {
    if t > 0 {
      RunKeepsInv(run, events, t - 1);
      if events[t - 1].Save? {
        SaveKeepsInv(run[t - 1], run[t]);
      }
    }
  }

  lemma {:induction false} FragmentsJoin(disk: Disk, chain: seq<Block>, n: nat)
    requires n <= FragmentCount(|chain|)
    requires forall k: nat :: k < n ==> k in disk && disk[k] == Fragment(chain, k)
    ensures Concatenated(disk, n) == chain[..Min(n * BLOC_FRAGMENT_MAX, |chain|)]
  {
    if n > 0 {
      FragmentsJoin(disk, chain, n - 1);
    }
  }

  // After any interleaving of growth and saves the files hold the chain of the last save.
  lemma FilesHoldTheChain(run: seq<State>, events: seq<Event>, t: nat)
    requires IsRun(run, events) && t < |run|
    ensures forall k: nat :: k < run[t].multiPrev ==> k in run[t].disk
    ensures Concatenated(run[t].disk, run[t].multiPrev) == run[t].saved
    ensures t > 0 && events[t - 1].Save? ==> run[t].saved == run[t].chain
  {
    RunKeepsInv(run, events, t);
    FragmentsJoin(run[t].disk, run[t].saved, run[t].multiPrev);
  }
}
