/** The transaction pool: bounded maps, the time-ordered list beside them, and block selection. */
module TransactionPools {
  import opened Wrappers
  import opened Ledger
  import opened SortedHashes

  const BLOCK_SIZE := 5

  datatype OverloadBehavior = Nothing | Ignore | Drop

  // ---- block selection as functions of the list and the set of valid hashes ----

  // The valid hashes, in order.
  function GoodOnly(hs: seq<Bytes>, valid: set<Bytes>): seq<Bytes> {
    if hs == [] then []
    else (if hs[0] in valid then [hs[0]] else []) + GoodOnly(hs[1..], valid)
  }

  function FirstN(hs: seq<Bytes>, n: nat): seq<Bytes> {
    hs[..if n <= |hs| then n else |hs|]
  }

  // The second loop over what follows the first BLOCK_SIZE hashes.  Removing an invalid
  // transaction shifts the list, and stepping the index as well passes over its successor.
  function Fill(rest: seq<Bytes>, need: nat, valid: set<Bytes>): seq<Bytes> {
    if need == 0 || rest == [] then []
    else if rest[0] in valid then [rest[0]] + Fill(rest[1..], need - 1, valid)
    else if |rest| == 1 then []
    else Fill(rest[2..], need, valid)
  }

  // What the second loop leaves of the list: the invalid hashes it met are gone.
  function FillLeft(rest: seq<Bytes>, need: nat, valid: set<Bytes>): seq<Bytes> {
    if need == 0 || rest == [] then rest
    else if rest[0] in valid then [rest[0]] + FillLeft(rest[1..], need - 1, valid)
    else if |rest| == 1 then []
    else [rest[1]] + FillLeft(rest[2..], need, valid)
  }

  // How the first loop's hashes and the rest of the list divide.
  function Head(list: seq<Bytes>): seq<Bytes> {
    FirstN(list, BLOCK_SIZE)
  }

  function Rest(list: seq<Bytes>): seq<Bytes> {
    list[|Head(list)|..]
  }

  function Need(list: seq<Bytes>, valid: set<Bytes>): nat {
    GoodOnlyIn(Head(list), valid);
    BLOCK_SIZE - |GoodOnly(Head(list), valid)|
  }

  // The hashes selected for a block, and the list left behind.
  function Selected(list: seq<Bytes>, valid: set<Bytes>): seq<Bytes> {
    GoodOnly(Head(list), valid) + Fill(Rest(list), Need(list, valid), valid)
  }

  function ListLeft(list: seq<Bytes>, valid: set<Bytes>): seq<Bytes> {
    GoodOnly(Head(list), valid) + FillLeft(Rest(list), Need(list, valid), valid)
  }

  lemma {:induction false} GoodOnlyIn(hs: seq<Bytes>, valid: set<Bytes>)
    ensures |GoodOnly(hs, valid)| <= |hs|
    ensures forall h :: h in GoodOnly(hs, valid) <==> h in hs && h in valid
  {
    if hs != [] {
      assert hs == [hs[0]] + hs[1..];
      GoodOnlyIn(hs[1..], valid);
    }
  }

  // s is what remains of t after dropping some elements.
  predicate Subsequence(s: seq<Bytes>, t: seq<Bytes>) {
    s == [] || (t != [] && (if s[0] == t[0] then Subsequence(s[1..], t[1..]) else Subsequence(s, t[1..])))
  }

  lemma {:induction false} SubsequenceIn(s: seq<Bytes>, t: seq<Bytes>)
    requires Subsequence(s, t)
    ensures forall h :: h in s ==> h in t
  {
    if s != [] {
      assert t == [t[0]] + t[1..];
      if s[0] == t[0] {
        assert s == [s[0]] + s[1..];
        SubsequenceIn(s[1..], t[1..]);
      } else {
        SubsequenceIn(s, t[1..]);
      }
    }
  }

  lemma {:induction false} SubsequenceOrdered(s: seq<Bytes>, t: seq<Bytes>, txs: TxMap)
    requires Subsequence(s, t) && Distinct(t) && InOrder(t, txs)
    ensures Distinct(s) && InOrder(s, txs)
  {
    if s != [] {
      if s[0] == t[0] {
        SubsequenceOrdered(s[1..], t[1..], txs);
        SubsequenceIn(s[1..], t[1..]);
        forall j | 1 <= j < |s|
          ensures s[j] != s[0] && Time(txs, s[0]) <= Time(txs, s[j])
        {
          assert s[1..][j - 1] in s[1..];
        }
      } else {
        SubsequenceOrdered(s, t[1..], txs);
      }
    }
  }

  lemma SkipOne(s: seq<Bytes>, t: seq<Bytes>)
    requires t != [] && Distinct(t) && Subsequence(s, t[1..])
    ensures Subsequence(s, t)
  {
    if s != [] {
      SubsequenceIn(s, t[1..]);
      assert s[0] in t[1..];
    }
  }

  lemma {:induction false} GoodOnlySubsequence(hs: seq<Bytes>, valid: set<Bytes>, more: seq<Bytes>, rest: seq<Bytes>)
    requires Distinct(hs + rest) && Subsequence(more, rest)
    ensures Subsequence(GoodOnly(hs, valid) + more, hs + rest)
  {
    if hs == [] {
      assert hs + rest == rest && GoodOnly(hs, valid) + more == more;
    } else {
      assert (hs + rest)[1..] == hs[1..] + rest;
      GoodOnlySubsequence(hs[1..], valid, more, rest);
      var tail := GoodOnly(hs[1..], valid) + more;
      if hs[0] in valid {
        assert GoodOnly(hs, valid) + more == [hs[0]] + tail;
      } else {
        assert GoodOnly(hs, valid) + more == tail;
        SkipOne(tail, hs + rest);
      }
    }
  }

  lemma {:induction false} FillSubsequence(rest: seq<Bytes>, need: nat, valid: set<Bytes>)
    requires Distinct(rest)
    ensures Subsequence(Fill(rest, need, valid), rest)
    ensures |Fill(rest, need, valid)| <= need
    ensures forall h :: h in Fill(rest, need, valid) ==> h in valid
    decreases |rest|
  {
    if need > 0 && rest != [] {
      if rest[0] in valid {
        FillSubsequence(rest[1..], need - 1, valid);
      } else if |rest| > 1 {
        FillSubsequence(rest[2..], need, valid);
        assert rest[1..][1..] == rest[2..];
        SkipOne(Fill(rest[2..], need, valid), rest[1..]);
        SkipOne(Fill(rest[2..], need, valid), rest);
      }
    }
  }

  // A block takes at most BLOCK_SIZE distinct valid transactions, in time order.
  lemma SelectedIsOrdered(list: seq<Bytes>, txs: TxMap, valid: set<Bytes>)
    requires Coherent(list, txs)
    ensures |Selected(list, valid)| <= BLOCK_SIZE
    ensures Distinct(Selected(list, valid)) && InOrder(Selected(list, valid), txs)
    ensures forall h :: h in Selected(list, valid) ==> h in txs && h in valid
  {
    assert list == Head(list) + Rest(list);
    var need := Need(list, valid);
    GoodOnlyIn(Head(list), valid);
    FillSubsequence(Rest(list), need, valid);
    GoodOnlySubsequence(Head(list), valid, Fill(Rest(list), need, valid), Rest(list));
    SubsequenceIn(Selected(list, valid), list);
    SubsequenceOrdered(Selected(list, valid), list, txs);
  }

  // ---- does a block take as many valid transactions as it could? ----

  // Every invalid transaction at which the second loop looks is followed by no valid one.
  predicate NoneSkipped(rest: seq<Bytes>, need: nat, valid: set<Bytes>) {
    if need == 0 || rest == [] then true
    else if rest[0] in valid then NoneSkipped(rest[1..], need - 1, valid)
    else if |rest| == 1 then true
    else rest[1] !in valid && NoneSkipped(rest[2..], need, valid)
  }

  // How many entries at the end of s are invalid.
  function InvalidRun(s: seq<Bytes>, valid: set<Bytes>): nat {
    if s == [] || s[|s| - 1] in valid then 0 else 1 + InvalidRun(s[..|s| - 1], valid)
  }

  // Before each of the first need valid entries stands an even number of invalid ones.
  predicate EvenGaps(rest: seq<Bytes>, need: nat, valid: set<Bytes>) {
    forall i :: 0 <= i < |rest| && rest[i] in valid && |GoodOnly(rest[..i], valid)| < need ==>
      InvalidRun(rest[..i], valid) % 2 == 0
  }

  lemma {:induction false} InvalidRunAfter(x: Bytes, s: seq<Bytes>, valid: set<Bytes>)
    ensures InvalidRun(s, valid) <= |s|
    ensures InvalidRun([x] + s, valid)
            == InvalidRun(s, valid) + if x !in valid && InvalidRun(s, valid) == |s| then 1 else 0
  {
    if s == [] {
      assert [x] + s == [x] && [x][..0] == [];
    } else {
      var n := |s| - 1;
      assert ([x] + s)[..|s|] == [x] + s[..n];
      InvalidRunAfter(x, s[..n], valid);
    }
  }

  // The second loop looks at an entry exactly if an even number of invalid ones stands before it.
  predicate LookedAt(rest: seq<Bytes>, i: nat, valid: set<Bytes>)
    requires i < |rest|
  {
    InvalidRun(rest[..i], valid) % 2 == 0
  }

  // How many valid entries of s it looks at.
  function Taken(s: seq<Bytes>, valid: set<Bytes>): nat {
    if s == [] then 0
    else
      var n := |s| - 1;
      Taken(s[..n], valid) + if s[n] in valid && LookedAt(s, n, valid) then 1 else 0
  }

  lemma {:induction false} TakenAfterValid(x: Bytes, s: seq<Bytes>, valid: set<Bytes>)
    requires x in valid
    ensures InvalidRun([x] + s, valid) == InvalidRun(s, valid)
    ensures Taken([x] + s, valid) == 1 + Taken(s, valid)
  {
    InvalidRunAfter(x, s, valid);
    if s == [] {
      assert [x] + s == [x] && [x][..0] == [];
    } else {
      var n := |s| - 1;
      assert ([x] + s)[..n + 1] == [x] + s[..n];
      TakenAfterValid(x, s[..n], valid);
    }
  }

  lemma ParityAfterPair(x: Bytes, y: Bytes, s: seq<Bytes>, valid: set<Bytes>)
    requires x !in valid
    ensures InvalidRun([x, y] + s, valid) % 2 == InvalidRun(s, valid) % 2
  {
    assert [x] + ([y] + s) == [x, y] + s;
    InvalidRunAfter(x, [y] + s, valid);
    InvalidRunAfter(y, s, valid);
  }

  lemma {:induction false} TakenAfterPair(x: Bytes, y: Bytes, s: seq<Bytes>, valid: set<Bytes>)
    requires x !in valid
    ensures Taken([x, y] + s, valid) == Taken(s, valid)
  {
    if s == [] {
      assert [x, y] + s == [x, y] && [x, y][..1] == [x] && [x][..0] == [];
      assert Taken([x], valid) == 0 && InvalidRun([x], valid) == 1;
    } else {
      hide InvalidRun;
      var n, longer := |s| - 1, [x, y] + s;
      assert longer[..n + 2] == [x, y] + s[..n] && longer[n + 2] == s[n];
      ParityAfterPair(x, y, s[..n], valid);
      TakenAfterPair(x, y, s[..n], valid);
      assert LookedAt(longer, n + 2, valid) == LookedAt(s, n, valid);
    }
  }

  // Entry i is selected exactly if it is valid, looked at and still needed; it leaves the list
  // exactly if it is invalid, looked at and the block not yet full.
  predicate FillsAt(rest: seq<Bytes>, need: nat, valid: set<Bytes>, i: nat)
    requires i < |rest|
  {
    var looked := LookedAt(rest, i, valid) && Taken(rest[..i], valid) < need;
    && (rest[i] in Fill(rest, need, valid) <==> rest[i] in valid && looked)
    && (rest[i] in FillLeft(rest, need, valid) <==> rest[i] in valid || !looked)
  }

  lemma {:induction false} FillExactly(rest: seq<Bytes>, need: nat, valid: set<Bytes>, i: nat)
    requires Distinct(rest) && i < |rest|
    ensures FillsAt(rest, need, valid, i)
    decreases |rest|
  {
    hide LookedAt, Taken, InvalidRun;
    FillSubset(rest, need, valid);
    if need == 0 {
    } else if rest[0] in valid {
      FillAfterValid(rest, need, valid, i);
    } else {
      FillAfterPair(rest, need, valid, i);
    }
  }

  lemma {:induction false} FillSubset(rest: seq<Bytes>, need: nat, valid: set<Bytes>)
    ensures forall h :: h in Fill(rest, need, valid) || h in FillLeft(rest, need, valid) ==> h in rest
    decreases |rest|
  {
    if need > 0 && rest != [] {
      if rest[0] in valid {
        FillSubset(rest[1..], need - 1, valid);
      } else if |rest| > 1 {
        FillSubset(rest[2..], need, valid);
      }
    }
  }

  lemma {:induction false} FillAfterValid(rest: seq<Bytes>, need: nat, valid: set<Bytes>, i: nat)
    requires Distinct(rest) && i < |rest| && need > 0 && rest[0] in valid
    ensures FillsAt(rest, need, valid, i)
    decreases |rest|, 0
  {
    var tail := rest[1..];
    if i == 0 {
      assert rest[..0] == [];
    } else {
      FillExactly(tail, need - 1, valid, i - 1);
      assert rest[..i] == [rest[0]] + tail[..i - 1];
      TakenAfterValid(rest[0], tail[..i - 1], valid);
      assert rest[i] == tail[i - 1] && rest[i] != rest[0];
    }
  }

  lemma {:induction false} FillAfterPair(rest: seq<Bytes>, need: nat, valid: set<Bytes>, i: nat)
    requires Distinct(rest) && i < |rest| && need > 0 && rest[0] !in valid
    ensures FillsAt(rest, need, valid, i)
    decreases |rest|, 0
  {
    if i == 0 {
      assert rest[..0] == [];
      if |rest| > 1 {
        FillSubset(rest[2..], need, valid);
      }
    } else {
      var tail := rest[2..];
      FillSubset(tail, need, valid);
      if i == 1 {
        assert rest[..1] == [rest[0]] && [rest[0]][..0] == [];
        assert InvalidRun([rest[0]], valid) == 1;
      } else {
        FillExactly(tail, need, valid, i - 2);
        assert rest[..i] == [rest[0], rest[1]] + tail[..i - 2];
        ParityAfterPair(rest[0], rest[1], tail[..i - 2], valid);
        TakenAfterPair(rest[0], rest[1], tail[..i - 2], valid);
        assert rest[i] == tail[i - 2] && rest[i] != rest[1];
      }
    }
  }

  lemma GapsAfterValid(rest: seq<Bytes>, need: nat, valid: set<Bytes>)
    requires rest != [] && rest[0] in valid && need > 0
    ensures EvenGaps(rest, need, valid) <==> EvenGaps(rest[1..], need - 1, valid)
  {
    var tail := rest[1..];
    forall i | 0 <= i < |tail|
      ensures InvalidRun(rest[..i + 1], valid) == InvalidRun(tail[..i], valid)
      ensures |GoodOnly(rest[..i + 1], valid)| == 1 + |GoodOnly(tail[..i], valid)|
    {
      assert rest[..i + 1] == [rest[0]] + tail[..i];
      InvalidRunAfter(rest[0], tail[..i], valid);
    }
    assert forall i :: 0 < i < |rest| ==> rest[i] == tail[i - 1] && rest[..i] == rest[..i - 1 + 1];
    assert rest[..0] == [];
    if EvenGaps(rest, need, valid) {
      forall i | 0 <= i < |tail| && tail[i] in valid && |GoodOnly(tail[..i], valid)| < need - 1
        ensures InvalidRun(tail[..i], valid) % 2 == 0
      {
        assert rest[i + 1] in valid;
      }
    }
  }

  lemma GapsAfterPair(rest: seq<Bytes>, need: nat, valid: set<Bytes>)
    requires |rest| >= 2 && rest[0] !in valid && rest[1] !in valid
    ensures EvenGaps(rest, need, valid) <==> EvenGaps(rest[2..], need, valid)
  {
    var tail := rest[2..];
    forall i | 0 <= i < |tail|
      ensures InvalidRun(rest[..i + 2], valid) % 2 == InvalidRun(tail[..i], valid) % 2
      ensures |GoodOnly(rest[..i + 2], valid)| == |GoodOnly(tail[..i], valid)|
    {
      var front := [rest[1]] + tail[..i];
      assert rest[..i + 2] == [rest[0]] + front;
      InvalidRunAfter(rest[1], tail[..i], valid);
      InvalidRunAfter(rest[0], front, valid);
      assert GoodOnly(front, valid) == GoodOnly(tail[..i], valid) by {
        assert front[1..] == tail[..i];
      }
    }
    assert forall i :: 2 <= i < |rest| ==> rest[i] == tail[i - 2] && rest[..i] == rest[..i - 2 + 2];
    if EvenGaps(rest, need, valid) {
      forall i | 0 <= i < |tail| && tail[i] in valid && |GoodOnly(tail[..i], valid)| < need
        ensures InvalidRun(tail[..i], valid) % 2 == 0
      {
        assert rest[i + 2] in valid;
      }
    }
  }

  lemma OddGap(rest: seq<Bytes>, need: nat, valid: set<Bytes>)
    requires |rest| >= 2 && rest[0] !in valid && rest[1] in valid && need > 0
    ensures !EvenGaps(rest, need, valid)
  {
    assert rest[..1] == [rest[0]] && [rest[0]][..0] == [];
    assert InvalidRun(rest[..1], valid) == 1 && GoodOnly(rest[..1], valid) == [];
  }

  lemma {:induction false} NoneSkippedIffEvenGaps(rest: seq<Bytes>, need: nat, valid: set<Bytes>)
    ensures NoneSkipped(rest, need, valid) <==> EvenGaps(rest, need, valid)
    decreases |rest|
  {
    if need > 0 && rest != [] {
      hide EvenGaps;
      if rest[0] in valid {
        GapsAfterValid(rest, need, valid);
        NoneSkippedIffEvenGaps(rest[1..], need - 1, valid);
      } else if |rest| == 1 {
        LastIsInvalid(rest, need, valid);
      } else if rest[1] in valid {
        OddGap(rest, need, valid);
      } else {
        GapsAfterPair(rest, need, valid);
        NoneSkippedIffEvenGaps(rest[2..], need, valid);
      }
    }
  }

  lemma LastIsInvalid(rest: seq<Bytes>, need: nat, valid: set<Bytes>)
    requires |rest| == 1 && rest[0] !in valid
    ensures EvenGaps(rest, need, valid)
  {
  }

  // The block is the first BLOCK_SIZE valid transactions of the list exactly when, after its
  // first five entries, an even number of invalid ones stands before each valid one still needed.
  lemma SelectedIsFirstValid(list: seq<Bytes>, valid: set<Bytes>)
    requires Distinct(list)
    ensures Selected(list, valid) == FirstN(GoodOnly(list, valid), BLOCK_SIZE)
       <==> EvenGaps(Rest(list), Need(list, valid), valid)
  {
    NoneSkippedIffEvenGaps(Rest(list), Need(list, valid), valid);
    hide EvenGaps, NoneSkipped, Fill;
    var first, more, need := GoodOnly(Head(list), valid), GoodOnly(Rest(list), valid), Need(list, valid);
    assert list == Head(list) + Rest(list);
    GoodOnlyConcat(Head(list), Rest(list), valid);
    GoodOnlyIn(Head(list), valid);
    FirstNConcat(first, more, BLOCK_SIZE);
    Cancel(first, Fill(Rest(list), need, valid), FirstN(more, need));
    FillIffNoneSkipped(Rest(list), need, valid);
  }

  lemma {:induction false} GoodOnlyConcat(a: seq<Bytes>, b: seq<Bytes>, valid: set<Bytes>)
    ensures GoodOnly(a + b, valid) == GoodOnly(a, valid) + GoodOnly(b, valid)
  {
    if a == [] {
      assert a + b == b;
    } else {
      assert (a + b)[1..] == a[1..] + b;
      GoodOnlyConcat(a[1..], b, valid);
    }
  }

  lemma FirstNConcat(a: seq<Bytes>, b: seq<Bytes>, n: nat)
    requires |a| <= n
    ensures FirstN(a + b, n) == a + FirstN(b, n - |a|)
  {
  }

  lemma Cancel(a: seq<Bytes>, b: seq<Bytes>, c: seq<Bytes>)
    ensures a + b == a + c <==> b == c
  {
    assert (a + b)[|a|..] == b && (a + c)[|a|..] == c;
  }

  lemma {:induction false} FillIffNoneSkipped(rest: seq<Bytes>, need: nat, valid: set<Bytes>)
    requires Distinct(rest)
    ensures Fill(rest, need, valid) == FirstN(GoodOnly(rest, valid), need) <==> NoneSkipped(rest, need, valid)
    decreases |rest|
  {
    if need > 0 && rest != [] {
      var tail := GoodOnly(rest[1..], valid);
      if rest[0] in valid {
        FillIffNoneSkipped(rest[1..], need - 1, valid);
        FirstNConcat([rest[0]], tail, need);
        Cancel([rest[0]], Fill(rest[1..], need - 1, valid), FirstN(tail, need - 1));
      } else {
        assert GoodOnly(rest, valid) == tail;
        if |rest| > 1 {
          assert rest[1..][1..] == rest[2..];
          FillIffNoneSkipped(rest[2..], need, valid);
          FillSubsequence(rest[2..], need, valid);
          SubsequenceIn(Fill(rest[2..], need, valid), rest[2..]);
          assert rest[1] in valid ==> FirstN(tail, need)[0] == rest[1];
          assert rest[1] !in valid ==> tail == GoodOnly(rest[2..], valid);
          assert rest[1] !in rest[2..];
        }
      }
    }
  }

  // With transactions 0 and 5 invalid, a block of four is made although a fifth valid one is pooled.
  lemma ShortBlockExample(a: seq<Bytes>, valid: set<Bytes>)
    requires |a| == 7 && forall i :: 0 <= i < 7 ==> (a[i] in valid <==> i != 0 && i != 5)
    ensures Selected(a, valid) == a[1..5]
    ensures FirstN(GoodOnly(a, valid), BLOCK_SIZE) == a[1..5] + [a[6]]
  {
    GoodOnlyAll(a[1..5], valid);
    assert Head(a) == a[..5] == [a[0]] + a[1..5] && Rest(a) == [a[5], a[6]];
    GoodOnlyConcat([a[0]], a[1..5], valid);
    assert GoodOnly(Head(a), valid) == a[1..5];
    assert a == Head(a) + Rest(a);
    GoodOnlyConcat(Head(a), Rest(a), valid);
    assert Rest(a)[1..] == [a[6]] && Rest(a)[2..] == [];
    GoodOnlyAll([a[6]], valid);
    assert Need(a, valid) == 1 && Fill(Rest(a), 1, valid) == [];
  }

  lemma {:induction false} GoodOnlyAll(hs: seq<Bytes>, valid: set<Bytes>)
    requires forall i :: 0 <= i < |hs| ==> hs[i] in valid
    ensures GoodOnly(hs, valid) == hs
  {
    if hs != [] {
      GoodOnlyAll(hs[1..], valid);
    }
  }

  // Which entries a block takes and which it drops from the list, entry by entry.
  lemma SelectedExactly(list: seq<Bytes>, valid: set<Bytes>, i: nat)
    requires Distinct(list) && i < |list|
    ensures i < BLOCK_SIZE ==>
              (list[i] in Selected(list, valid) <==> list[i] in valid)
              && (list[i] in ListLeft(list, valid) <==> list[i] in valid)
    ensures i >= BLOCK_SIZE ==>
      var before := list[BLOCK_SIZE..i];
      var looked := InvalidRun(before, valid) % 2 == 0 && Taken(before, valid) < Need(list, valid);
      && (list[i] in Selected(list, valid) <==> list[i] in valid && looked)
      && (list[i] in ListLeft(list, valid) <==> list[i] in valid || !looked)
  {
    hide InvalidRun, Taken, Fill, FillLeft, Need;
    GoodOnlyIn(Head(list), valid);
    FillSubset(Rest(list), Need(list, valid), valid);
    assert list == Head(list) + Rest(list);
    if i < BLOCK_SIZE {
      assert list[i] in Head(list) && list[i] !in Rest(list);
    } else {
      assert list[i] == Rest(list)[i - BLOCK_SIZE] && list[i] !in Head(list);
      assert Rest(list)[..i - BLOCK_SIZE] == list[BLOCK_SIZE..i];
      FillExactly(Rest(list), Need(list, valid), valid, i - BLOCK_SIZE);
    }
  }

  // ---- the two loops of block selection, step by step ----

  // After j hashes of head: g is what was taken, contents what the list has become.
  ghost predicate Screening(head: seq<Bytes>, j: nat, rest: seq<Bytes>, valid: set<Bytes>,
                            contents: seq<Bytes>, g: seq<Bytes>)
    requires j <= |head|
  {
    g == GoodOnly(head[..j], valid) && contents == g + head[j..] + rest
  }

  lemma ScreenNone(list: seq<Bytes>, txs: TxMap, valid: set<Bytes>)
    ensures Screening(Head(list), 0, Rest(list), valid, list, []) && Fetched([], [], txs) && SubMap(txs, txs)
  {
  }

  lemma ScreenNext(head: seq<Bytes>, j: nat, rest: seq<Bytes>, valid: set<Bytes>, contents: seq<Bytes>, g: seq<Bytes>)
    requires j < |head| && Screening(head, j, rest, valid, contents, g)
    ensures |g| < |contents| && contents[|g|] == head[j] && head[j] in contents
  {
  }

  lemma ScreenOne(head: seq<Bytes>, j: nat, rest: seq<Bytes>, valid: set<Bytes>, contents: seq<Bytes>, g: seq<Bytes>)
    requires j < |head| && Screening(head, j, rest, valid, contents, g) && Distinct(contents)
    ensures head[j] in valid ==> Screening(head, j + 1, rest, valid, contents, g + [head[j]])
    ensures head[j] !in valid ==> Screening(head, j + 1, rest, valid, RemoveFirst(contents, head[j]), g)
  {
    var h := head[j];
    assert head[..j + 1] == head[..j] + [h] && head[j..] == [h] + head[j + 1..];
    GoodOnlyConcat(head[..j], [h], valid);
    assert GoodOnly([h], valid) == if h in valid then [h] else [];
    assert contents[|g|] == h;
    RemoveFirstAt(contents, h, |g|);
    assert contents[..|g|] + contents[|g| + 1..] == g + head[j + 1..] + rest;
  }

  function From(s: seq<Bytes>, p: nat): seq<Bytes> {
    if p <= |s| then s[p..] else []
  }

  // At index p of the second loop, with g taken so far: what is still to come completes g to
  // the selection, and the scanned part of the list to what will be left.
  ghost predicate Scanning(list: seq<Bytes>, valid: set<Bytes>, contents: seq<Bytes>, p: nat, g: seq<Bytes>) {
    && |g| <= BLOCK_SIZE
    && Selected(list, valid) == g + Fill(From(contents, p), BLOCK_SIZE - |g|, valid)
    && ListLeft(list, valid) == FirstN(contents, p) + FillLeft(From(contents, p), BLOCK_SIZE - |g|, valid)
  }

  lemma ScanStart(list: seq<Bytes>, valid: set<Bytes>, contents: seq<Bytes>, g: seq<Bytes>)
    requires Screening(Head(list), |Head(list)|, Rest(list), valid, contents, g)
    ensures Scanning(list, valid, contents, |g|, g)
  {
    assert Head(list)[..|Head(list)|] == Head(list) && Head(list)[|Head(list)|..] == [];
    GoodOnlyIn(Head(list), valid);
    assert From(contents, |g|) == Rest(list) && FirstN(contents, |g|) == g;
  }

  lemma ScanTake(list: seq<Bytes>, valid: set<Bytes>, contents: seq<Bytes>, p: nat, g: seq<Bytes>)
    requires Scanning(list, valid, contents, p, g) && p < |contents| && |g| < BLOCK_SIZE && contents[p] in valid
    ensures Scanning(list, valid, contents, p + 1, g + [contents[p]])
  {
    var rest := From(contents, p);
    assert rest[1..] == From(contents, p + 1) && rest[0] == contents[p];
    assert FirstN(contents, p + 1) == FirstN(contents, p) + [contents[p]];
  }

  lemma ScanDrop(list: seq<Bytes>, valid: set<Bytes>, contents: seq<Bytes>, p: nat, g: seq<Bytes>)
    requires Scanning(list, valid, contents, p, g) && p < |contents| && |g| < BLOCK_SIZE && contents[p] !in valid
    requires Distinct(contents)
    ensures Scanning(list, valid, RemoveFirst(contents, contents[p]), p + 1, g)
    ensures |RemoveFirst(contents, contents[p])| == |contents| - 1
  {
    hide Selected, ListLeft, RemoveFirst;
    RemoveFirstAt(contents, contents[p], p);
    var rest, left := From(contents, p), contents[..p] + contents[p + 1..];
    assert rest[0] == contents[p];
    if |rest| == 1 {
      assert From(left, p + 1) == [] && FirstN(left, p + 1) == FirstN(contents, p);
    } else {
      assert From(left, p + 1) == rest[2..] && FirstN(left, p + 1) == FirstN(contents, p) + [rest[1]];
    }
  }

  lemma ScanEnd(list: seq<Bytes>, valid: set<Bytes>, contents: seq<Bytes>, p: nat, g: seq<Bytes>)
    requires Scanning(list, valid, contents, p, g) && (|g| >= BLOCK_SIZE || p >= |contents|)
    ensures g == Selected(list, valid) && contents == ListLeft(list, valid)
  {
    assert FirstN(contents, p) + From(contents, p) == contents;
  }

  lemma {:induction false} CoherentSize(s: seq<Bytes>, txs: TxMap)
    requires Coherent(s, txs)
    ensures |s| == |txs|
    decreases |s|
  {
    if s != [] {
      var h := s[0];
      RemoveCoherent(s, txs, h);
      assert txs.Keys == (txs - {h}).Keys + {h};
      CoherentSize(s[1..], txs - {h});
    }
  }

  // ---- the pool ----

  // The block's transactions are those stored under hs.
  ghost predicate Fetched(block: seq<Transaction>, hs: seq<Bytes>, txs: TxMap) {
    |block| == |hs| && forall k :: 0 <= k < |hs| ==> hs[k] in txs && block[k] == txs[hs[k]]
  }

  function ValidHashes(txs: TxMap, verify: Transaction -> bool): set<Bytes> {
    set h | h in txs && verify(txs[h])
  }

  lemma FetchedSize(block: seq<Transaction>, hs: seq<Bytes>, txs: TxMap)
    requires Fetched(block, hs, txs)
    ensures |block| == |hs|
  {
  }

  lemma FetchedMore(block: seq<Transaction>, hs: seq<Bytes>, txs: TxMap, h: Bytes)
    requires Fetched(block, hs, txs) && h in txs
    ensures Fetched(block + [txs[h]], hs + [h], txs)
  {
  }

  lemma BlockIsVerified(block: seq<Transaction>, list: seq<Bytes>, txs: TxMap, verify: Transaction -> bool)
    requires Coherent(list, txs) && Fetched(block, Selected(list, ValidHashes(txs, verify)), txs)
    ensures |block| <= 5 && (forall t :: t in block ==> verify(t))
    ensures forall i, j :: 0 <= i < j < |block| ==> block[i].timestamp <= block[j].timestamp
  {
    hide Selected, Coherent;
    var hs := Selected(list, ValidHashes(txs, verify));
    SelectedIsOrdered(list, txs, ValidHashes(txs, verify));
    forall k | 0 <= k < |block|
      ensures verify(block[k]) && block[k].timestamp == Time(txs, hs[k])
    {
      assert hs[k] in hs;
    }
  }

  // A listed hash is stored, as it was at the start, and verification tells whether it is valid.
  lemma Listed(list: seq<Bytes>, now: TxMap, txs: TxMap, verify: Transaction -> bool, h: Bytes)
    requires Coherent(list, now) && SubMap(now, txs) && h in list
    ensures Distinct(list) && h in now && h in txs && now[h] == txs[h]
    ensures h in ValidHashes(txs, verify) <==> verify(now[h])
    ensures SubMap(now - {h}, txs)
  {
  }

  lemma CoherentEmpty()
    ensures Coherent([], map[])
  {
  }

  // A transaction enters the map, then its hash the list.
  method Store(list: SortedLinkedList, txs: TxMap, tx: Transaction) returns (txs': TxMap)
    requires list.Valid() && Coherent(list.contents, txs) && tx.hash !in txs
    modifies list, list.repr
    ensures txs' == txs[tx.hash := tx]
    ensures list.Valid() && Coherent(list.contents, txs')
    ensures list.contents == Inserted(old(list.contents), txs', tx.hash)
    ensures fresh(list.repr - old(list.repr))
  {
    InsertCoherent(list.contents, txs, tx);
    txs' := txs[tx.hash := tx];
    list.Insert(tx.hash, txs');
  }

  // Every transaction is stored under its own hash.
  ghost predicate Keyed(txs: TxMap) {
    forall h :: h in txs ==> txs[h].hash == h
  }

  lemma KeyedWith(txs: TxMap, tx: Transaction)
    requires Keyed(txs)
    ensures Keyed(txs[tx.hash := tx])
  {
  }

  lemma KeyedWithout(txs: TxMap, h: Bytes)
    ensures Keyed(txs) ==> Keyed(txs - {h})
    ensures |txs - {h}| <= |txs|
  {
    SmallerMap(txs - {h}, txs);
  }

  ghost predicate SubMap(a: TxMap, b: TxMap) {
    forall h :: h in a ==> h in b && a[h] == b[h]
  }

  // kept holds what has been copied of txs, todo the keys not yet seen.
  ghost predicate Copying(txs: TxMap, kept: TxMap, todo: set<Bytes>) {
    && SubMap(kept, txs) && Keyed(txs)
    && (forall h :: h in txs <==> (h in kept || h in todo))
    && forall h :: h in todo ==> h !in kept
  }

  lemma CopyNone(txs: TxMap)
    requires Keyed(txs)
    ensures Copying(txs, map[], txs.Keys)
  {
  }

  lemma CopyOne(txs: TxMap, kept: TxMap, todo: set<Bytes>, key: Bytes)
    requires Copying(txs, kept, todo) && key in todo
    ensures key in txs && key !in kept && txs[key].hash == key
    ensures Copying(txs, kept[key := txs[key]], todo - {key})
    ensures |kept[key := txs[key]]| == |kept| + 1
  {
    assert key !in kept.Keys;
    assert kept[key := txs[key]].Keys == kept.Keys + {key};
  }

  lemma {:induction false} SmallerMap(a: TxMap, b: TxMap)
    requires SubMap(a, b)
    ensures |a| <= |b| && ((forall h :: h in b ==> h in a) ==> |a| == |b|)
    decreases |a|
  {
    if h :| h in a {
      SmallerMap(a - {h}, b - {h});
      assert a.Keys == (a - {h}).Keys + {h} && b.Keys == (b - {h}).Keys + {h};
    } else {
      assert b != map[] ==> exists h :: h in b;
    }
  }

  // The loop of almostClear: keep `almost` transactions, whichever the map yields first; with
  // `almost` zero the counter never meets it and everything is kept.
  method KeepSome(txs: TxMap, almost: nat) returns (kept: TxMap, list: SortedLinkedList)
    requires Keyed(txs)
    ensures SubMap(kept, txs) && |kept| == if 0 < almost < |txs| then almost else |txs|
    ensures list.Valid() && Coherent(list.contents, kept) && fresh(list) && fresh(list.repr)
  {
    hide *;
    kept := map[];
    list := new SortedLinkedList();
    CoherentEmpty();
    var todo := txs.Keys;
    CopyNone(txs);
    while todo != {}
      invariant list.Valid() && fresh(list) && fresh(list.repr)
      invariant Coherent(list.contents, kept)
      invariant Copying(txs, kept, todo)
      invariant almost > 0 ==> |kept| < almost
    {
      var key :| key in todo;
      CopyOne(txs, kept, todo, key);
      kept := Store(list, kept, txs[key]);
      todo := todo - {key};
      if |kept| == almost {
        break;
      }
    }
    CopiedSize(txs, kept, todo);
  }

  lemma CopiedSize(txs: TxMap, kept: TxMap, todo: set<Bytes>)
    requires Copying(txs, kept, todo)
    ensures SubMap(kept, txs) && |kept| <= |txs| && (todo == {} ==> |kept| == |txs|)
  {
    SmallerMap(kept, txs);
  }

  class TransactionPool {
    var transactions: TxMap
    var commands: TxMap
    const transactionThreshold: nat
    var sortedList: SortedLinkedList
    var overloadBehavior: OverloadBehavior
    var accepting: bool  // the status last told to the senders

    // The list is coherent with the map, and neither map outgrows the threshold.
    ghost predicate Valid()
      reads this, sortedList, sortedList.repr
    {
      Sane() && Coherent(sortedList.contents, transactions)
    }

    // The same, the list aside.
    ghost predicate Sane()
      reads this, sortedList, sortedList.repr
    {
      && sortedList.Valid()
      && Keyed(transactions)
      && |transactions| <= transactionThreshold
      && |commands| <= transactionThreshold
    }

    constructor (threshold: nat, behavior: OverloadBehavior)
      ensures Valid() && fresh(sortedList) && sortedList.repr == {}
      ensures transactions == map[] && commands == map[] && transactionThreshold == threshold
      ensures overloadBehavior == behavior && accepting
    {
      transactions, commands := map[], map[];
      transactionThreshold := threshold;
      sortedList := new SortedLinkedList();
      overloadBehavior := behavior;
      accepting := true;
    }

    method Clear()
      requires Valid()
      modifies this`transactions, this`sortedList
      ensures Valid() && fresh(sortedList) && sortedList.repr == {}
      ensures transactions == map[]
    {
      transactions := map[];
      sortedList := new SortedLinkedList();
    }

    method AlmostClear()
      requires Sane()
      modifies this`transactions, this`sortedList
      ensures Valid() && fresh(sortedList) && fresh(sortedList.repr)
      ensures SubMap(transactions, old(transactions))
      ensures var almost := transactionThreshold / 64;
        |transactions| == if 0 < almost < |old(transactions)| then almost else |old(transactions)|
    {
      transactions, sortedList := KeepSome(transactions, transactionThreshold / 64);
    }

    method AfterTxAdd()
      requires Sane()
      modifies this`transactions, this`sortedList, this`accepting
      ensures Sane() && (sortedList == old(sortedList) || (fresh(sortedList) && fresh(sortedList.repr)))
      ensures overloadBehavior != Drop || |old(transactions)| != transactionThreshold ==>
                transactions == old(transactions) && sortedList == old(sortedList)
      ensures overloadBehavior == Drop && |old(transactions)| == transactionThreshold ==>
                |transactions|
                == (if transactionThreshold >= 64 then transactionThreshold / 64 else transactionThreshold)
                && SubMap(transactions, old(transactions)) && Valid()
      ensures accepting == (old(accepting) && !(overloadBehavior == Ignore && |transactions| == transactionThreshold))
    {
      match overloadBehavior
      case Nothing =>
      case Ignore =>
        if |transactions| == transactionThreshold {
          accepting := false;
        }
      case Drop =>
        if |transactions| == transactionThreshold {
          AlmostClear();
        }
    }
 
    // A hash that is pooled already is not refused, and enters the list once more: list and map
    // stay in step exactly if it is new.
    method AddTransaction(tx: Transaction) returns (ok: bool)
      requires Valid()
      modifies this`transactions, this`commands, this`sortedList, this`accepting, sortedList, sortedList.repr
      ensures Sane()
      ensures Valid() <==> !(ok && !tx.input.Command?) || tx.hash !in old(transactions)
      ensures ok <==> (if tx.input.Command? then |old(commands)| else |old(transactions)|) < transactionThreshold
      ensures commands == if ok && tx.input.Command? then old(commands)[tx.hash := tx] else old(commands)
      ensures !(ok && !tx.input.Command?) ==>
                transactions == old(transactions) && sortedList == old(sortedList)
                && sortedList.contents == old(sortedList.contents)
      ensures ok && !tx.input.Command? ==>
                var stored := old(transactions)[tx.hash := tx];
                if overloadBehavior == Drop && |stored| == transactionThreshold
                then SubMap(transactions, stored)
                     && |transactions|
                        == (if transactionThreshold >= 64 then transactionThreshold / 64 else transactionThreshold)
                else transactions == stored
                     && sortedList.contents == Inserted(old(sortedList.contents), stored, tx.hash)
    {
      hide Coherent, Keyed, Inserted, SortedLinkedList.Valid, SubMap;
      KeyedWith(transactions, tx);
      if tx.input.Command? {
        if |commands| < transactionThreshold {
          commands := commands[tx.hash := tx];
          return true;
        }
      } else {
        if |transactions| < transactionThreshold {
          AddCoherentIffFresh(sortedList.contents, transactions, tx);
          transactions := transactions[tx.hash := tx];
          sortedList.Insert(tx.hash, transactions);
          AfterTxAdd();
          return true;
        }
      }
      return false;
    }

    // A transaction leaves the map, then the list.
    method Discard(h: Bytes)
      requires Valid() && h in transactions
      modifies this`transactions, sortedList, sortedList.repr
      ensures Valid() && transactions == old(transactions) - {h}
      ensures sortedList.contents == RemoveFirst(old(sortedList.contents), h)
      ensures sortedList.repr == old(sortedList.repr)
    {
      hide Coherent, Keyed, RemoveFirst, SubMap, SortedLinkedList.Valid;
      RemoveCoherent(sortedList.contents, transactions, h);
      KeyedWithout(transactions, h);
      transactions := transactions - {h};
      sortedList.Remove(h);
    }
 
    method AfterTxRemove()
      modifies this`accepting
      ensures accepting == (old(accepting)
                            || (overloadBehavior == Ignore && |transactions| <= transactionThreshold * 3 / 4))
    {
      if overloadBehavior == Ignore {
        if !accepting && |transactions| <= transactionThreshold * 3 / 4 {
          accepting := true;
        }
      }
    }

    method RemoveTransaction(tx: Transaction)
      requires Valid()
      modifies this`transactions, this`commands, this`accepting, sortedList, sortedList.repr
      ensures Valid()
      ensures commands == if tx.input.Command? then old(commands) - {tx.hash} else old(commands)
      ensures tx.input.Command? || tx.hash !in old(transactions) ==>
                transactions == old(transactions) && sortedList.contents == old(sortedList.contents)
      ensures !tx.input.Command? && tx.hash in old(transactions) ==>
                transactions == old(transactions) - {tx.hash}
                && sortedList.contents == RemoveFirst(old(sortedList.contents), tx.hash)
    {
      hide Coherent, Keyed, RemoveFirst, SortedLinkedList.Valid;
      if tx.input.Command? {
        KeyedWithout(commands, tx.hash);
        commands := commands - {tx.hash};
      } else {
        var hash := tx.hash;
        if hash in transactions {
          Discard(hash);
        }
        AfterTxRemove();
      }
    }

    // Lines 347-362: the first valid command met, dropping the invalid ones before it.
    method PickCommand(accept: Transaction -> bool) returns (r: Option<Transaction>)
      requires |commands| <= transactionThreshold
      modifies this`commands
      ensures SubMap(commands, old(commands)) && |commands| <= transactionThreshold
      ensures forall h :: h in old(commands) && h !in commands ==> !accept(old(commands)[h])
      ensures r.Some? ==> accept(r.value) && exists h :: h in commands && commands[h] == r.value
      ensures r.None? ==> commands == map[]
    {
      var todo := commands.Keys;
      while todo != {}
        invariant forall h :: h in commands ==> h in todo
        invariant SubMap(commands, old(commands)) && |commands| <= transactionThreshold
        invariant forall h :: h in todo ==> h in commands
        invariant forall h :: h in old(commands) && h !in commands ==> !accept(old(commands)[h])
      {
        var key :| key in todo;
        var tx := commands[key];
        if accept(tx) {
          return Some(tx);
        }
        KeyedWithout(commands, key);
        commands := commands - {key};
        todo := todo - {key};
      }
      return None;
    }

    // Lines 367-391.
    method ScreenHead(verify: Transaction -> bool) returns (block: seq<Transaction>, ghost g: seq<Bytes>)
      requires Valid()
      modifies this`transactions, sortedList, sortedList.repr
      ensures Valid() && SubMap(transactions, old(transactions))
      ensures var list, valid := old(sortedList.contents), ValidHashes(old(transactions), verify);
        && Screening(Head(list), |Head(list)|, Rest(list), valid, sortedList.contents, g)
        && Fetched(block, g, old(transactions))
      ensures sortedList.repr == old(sortedList.repr)
    {
      hide Coherent, Keyed, SubMap, Fetched, Screening, RemoveFirst, ValidHashes, SortedLinkedList.Valid;
      ghost var list, txs, valid := sortedList.contents, transactions, ValidHashes(transactions, verify);
      ScreenNone(list, txs, valid);
      var hashes := sortedList.GetFirstsElem(BLOCK_SIZE);
      block, g := [], [];
      for j := 0 to |hashes|
        invariant Valid() && SubMap(transactions, txs)
        invariant Screening(hashes, j, Rest(list), valid, sortedList.contents, g)
        invariant Fetched(block, g, txs)
        invariant sortedList == old(sortedList) && sortedList.repr == old(sortedList.repr)
      {
        block, g := ScreenStep(verify, hashes, j, list, txs, block, g);
      }
    }

    method ScreenStep(verify: Transaction -> bool, hashes: seq<Bytes>, j: nat,
                      ghost list: seq<Bytes>, ghost txs: TxMap, block0: seq<Transaction>, ghost g0: seq<Bytes>)
        returns (block: seq<Transaction>, ghost g: seq<Bytes>)
      requires Valid() && SubMap(transactions, txs) && Fetched(block0, g0, txs) && j < |hashes|
      requires Screening(hashes, j, Rest(list), ValidHashes(txs, verify), sortedList.contents, g0)
      modifies this`transactions, sortedList, sortedList.repr
      ensures Valid() && SubMap(transactions, txs) && Fetched(block, g, txs)
      ensures Screening(hashes, j + 1, Rest(list), ValidHashes(txs, verify), sortedList.contents, g)
      ensures sortedList.repr == old(sortedList.repr)
    {
      hide Coherent, Keyed, SubMap, Fetched, Screening, RemoveFirst, ValidHashes, SortedLinkedList.Valid;
      var hash := hashes[j];
      ScreenNext(hashes, j, Rest(list), ValidHashes(txs, verify), sortedList.contents, g0);
      Listed(sortedList.contents, transactions, txs, verify, hash);
      FetchedMore(block0, g0, txs, hash);
      ScreenOne(hashes, j, Rest(list), ValidHashes(txs, verify), sortedList.contents, g0);
      block, g := block0, g0;
      var tx := transactions[hash];
      if verify(tx) {
        block, g := block + [tx], g + [hash];
      } else {
        Discard(hash);
      }
    }

    // Lines 403-436.
    method FillBlock(verify: Transaction -> bool, block0: seq<Transaction>, ghost g0: seq<Bytes>,
                     ghost list: seq<Bytes>, ghost txs: TxMap)
        returns (block: seq<Transaction>)
      requires Valid() && SubMap(transactions, txs)
      requires Scanning(list, ValidHashes(txs, verify), sortedList.contents, |g0|, g0) && Fetched(block0, g0, txs)
      modifies this`transactions, sortedList, sortedList.repr
      ensures Valid() && SubMap(transactions, txs)
      ensures sortedList.contents == ListLeft(list, ValidHashes(txs, verify))
      ensures Fetched(block, Selected(list, ValidHashes(txs, verify)), txs)
    {
      hide Coherent, Keyed, SubMap, Scanning, Fetched, RemoveFirst, ValidHashes, Selected, ListLeft,
        SortedLinkedList.Valid;
      ghost var valid, g := ValidHashes(txs, verify), g0;
      block := block0;
      FetchedSize(block, g, txs);
      var i := 0;
      CoherentSize(sortedList.contents, transactions);
      while |block| < BLOCK_SIZE && |transactions| > |block| + i
        invariant 0 <= i && Valid() && SubMap(transactions, txs)
        invariant |transactions| == |sortedList.contents|
        invariant Scanning(list, valid, sortedList.contents, i + |g|, g) && Fetched(block, g, txs) && |block| == |g|
        invariant sortedList == old(sortedList) && sortedList.repr == old(sortedList.repr)
        decreases |sortedList.contents| - i - |block|
      {
        var hash := sortedList.GetElemNumber(i + |block|);
        Listed(sortedList.contents, transactions, txs, verify, hash);
        FetchedMore(block, g, txs, hash);
        var tx := transactions[hash];
        if verify(tx) {
          ScanTake(list, valid, sortedList.contents, i + |block|, g);
          block, g := block + [tx], g + [hash];
        } else {
          ScanDrop(list, valid, sortedList.contents, i + |block|, g);
          Discard(hash);
          CoherentSize(sortedList.contents, transactions);
          i := i + 1;
        }
      }
      ScanEnd(list, valid, sortedList.contents, i + |block|, g);
    }

    method GetTxForBloc(verify: Transaction -> bool, verifyAsCommand: Transaction -> bool)
        returns (block: seq<Transaction>)
      requires Valid()
      modifies this`transactions, this`commands, sortedList, sortedList.repr
      ensures Valid() && SubMap(commands, old(commands)) && SubMap(transactions, old(transactions))
      ensures forall h :: h in old(commands) && h !in commands ==>
                !(verify(old(commands)[h]) && verifyAsCommand(old(commands)[h]))
      ensures commands != map[] ==>
                && |block| == 1 && verify(block[0]) && verifyAsCommand(block[0])
                && (exists h :: h in commands && commands[h] == block[0])
                && transactions == old(transactions) && sortedList.contents == old(sortedList.contents)
      ensures commands == map[] ==>
                var list, valid := old(sortedList.contents), ValidHashes(old(transactions), verify);
                && Fetched(block, Selected(list, valid), old(transactions))
                && sortedList.contents == ListLeft(list, valid)
      ensures |block| <= 5 && (forall t :: t in block ==> verify(t))
      ensures forall i, j :: 0 <= i < j < |block| ==> block[i].timestamp <= block[j].timestamp
    {
      hide Coherent, Keyed, SubMap, Fetched, Screening, Scanning, RemoveFirst, ValidHashes, Selected, ListLeft,
        SortedLinkedList.Valid;
      var command := PickCommand(tx => verify(tx) && verifyAsCommand(tx));
      if command.Some? {
        ScreenNone(sortedList.contents, transactions, {});
        return [command.value];
      }
      ghost var list, txs := sortedList.contents, transactions;
      ghost var g: seq<Bytes>;
      block, g := ScreenHead(verify);
      ScanStart(list, ValidHashes(txs, verify), sortedList.contents, g);
      block := FillBlock(verify, block, g, list, txs);
      BlockIsVerified(block, list, txs, verify);
    }
  }
}
