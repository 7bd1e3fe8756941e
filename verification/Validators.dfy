/** The validator registry: known nodes, the active subset, and its listing by original id. */
module Validators {
  import opened Wrappers
  import opened Ledger

  // ---- sort.Ints ----

  predicate Increasing(s: seq<int>) {
    forall i, j :: 0 <= i < j < |s| ==> s[i] < s[j]
  }

  function InsertSorted(s: seq<int>, x: int): seq<int> {
    if s == [] || s[|s| - 1] <= x then s + [x] else InsertSorted(s[..|s| - 1], x) + [s[|s| - 1]]
  }

  function SortInts(s: seq<int>): seq<int> {
    if s == [] then [] else InsertSorted(SortInts(s[..|s| - 1]), s[|s| - 1])
  }

  lemma {:induction false} InsertSortedOk(s: seq<int>, x: int)
    requires Increasing(s) && x !in s
    ensures Increasing(InsertSorted(s, x))
    ensures forall y :: y in InsertSorted(s, x) <==> y in s || y == x
  {
    if s != [] && s[|s| - 1] > x {
      var rest, last := s[..|s| - 1], s[|s| - 1];
      assert s == rest + [last];
      InsertSortedOk(rest, x);
      var r := InsertSorted(rest, x);
      forall i | 0 <= i < |r|
        ensures r[i] < last
      {
        assert r[i] in r;
      }
    }
  }

  lemma {:induction false} SortIntsOk(s: seq<int>)
    requires Distinct(s)
    ensures Increasing(SortInts(s))
    ensures forall x :: x in SortInts(s) <==> x in s
  {
    if s != [] {
      assert s == s[..|s| - 1] + [s[|s| - 1]];
      SortIntsOk(s[..|s| - 1]);
      InsertSortedOk(SortInts(s[..|s| - 1]), s[|s| - 1]);
    }
  }

  lemma LastIsGreatest(s: seq<int>)
    requires Increasing(s) && s != []
    ensures forall x :: x in s ==> x <= s[|s| - 1]
    ensures forall x :: x in s[..|s| - 1] <==> x in s && x != s[|s| - 1]
    ensures Increasing(s[..|s| - 1])
  {
    assert s == s[..|s| - 1] + [s[|s| - 1]];
  }

  // An increasing list is determined by its elements.
  lemma {:induction false} IncreasingUnique(s: seq<int>, t: seq<int>)
    requires Increasing(s) && Increasing(t)
    requires SameElements(s, t)
    ensures s == t
  {
    hide Increasing, SameElements;
    SameEmpty(s, t);
    if s != [] {
      LastIsGreatest(s);
      LastIsGreatest(t);
      SameLast(s, t);
      var m, n := |s| - 1, |t| - 1;
      IncreasingUnique(s[..m], t[..n]);
      assert s == s[..m] + [s[m]] && t == t[..n] + [t[n]];
    }
  }

  predicate SameElements(s: seq<int>, t: seq<int>) {
    (forall x :: x in s ==> x in t) && (forall x :: x in t ==> x in s)
  }

  lemma SameEmpty(s: seq<int>, t: seq<int>)
    requires SameElements(s, t)
    ensures s == [] <==> t == []
  {
    if s != [] {
      var x := s[0];
      assert x in s;
      assert x in t;
    }
    if t != [] {
      var x := t[0];
      assert x in t;
      assert x in s;
    }
  }

  lemma SameLast(s: seq<int>, t: seq<int>)
    requires Increasing(s) && Increasing(t) && SameElements(s, t) && s != [] && t != []
    ensures s[|s| - 1] == t[|t| - 1]
    ensures SameElements(s[..|s| - 1], t[..|t| - 1])
  {
    LastIsGreatest(s);
    LastIsGreatest(t);
    hide Increasing;
    var x, y := s[|s| - 1], t[|t| - 1];
    assert x in s && y in t;
    assert x in t && y in s;
    assert x == y;
    var s', t' := s[..|s| - 1], t[..|t| - 1];
    forall z | z in s'
      ensures z in t'
    {
      assert z in s;
    }
    forall z | z in t'
      ensures z in s'
    {
      assert z in t;
    }
  }

  // Listing the active validators in any order and sorting gives their ids in increasing order.
  lemma SortedIdsAreActiveIndices(nodes: seq<Key>, active: set<Key>, ids: seq<int>)
    requires Distinct(nodes) && KnownKeys(nodes, active) && Distinct(ids)
    requires forall i :: i in ids <==> 0 <= i < |nodes| && nodes[i] in active
    ensures SortInts(ids) == ActiveIndices(nodes, active)
  {
    var idx := ActiveIndices(nodes, active);
    SortIntsOk(ids);
    forall k | 0 <= k < |idx|
      ensures 0 <= idx[k] < |nodes| && nodes[idx[k]] in active
      ensures forall j :: 0 <= j < k ==> idx[j] < idx[k]
    {
      ActiveIndicesListed(nodes, active, k);
    }
    forall i | 0 <= i < |nodes| && nodes[i] in active
      ensures i in idx
    {
      ActiveIndicesComplete(nodes, active, i);
    }
    IncreasingUnique(SortInts(ids), idx);
  }

  class Registry {
    const nodeList: seq<Key>
    const isValidatorMap: map<Key, int>
    var isActiveValidatorMap: set<Key>

    ghost predicate Valid()
      reads this
    {
      && Distinct(nodeList)
      && KnownKeys(nodeList, isActiveValidatorMap)
      && isValidatorMap.Keys == (set k | k in nodeList)
      && forall i :: 0 <= i < |nodeList| ==> isValidatorMap[nodeList[i]] == i
    }

    // GenerateAddresses; the generated public keys are an argument.
    constructor (keys: seq<Key>)
      requires Distinct(keys)
      ensures Valid() && nodeList == keys && isActiveValidatorMap == set k | k in keys
    {
      var ids: map<Key, int> := map[];
      var active: set<Key> := {};
      for id := 0 to |keys|
        invariant ids.Keys == (set k | k in keys[..id]) && active == set k | k in keys[..id]
        invariant forall i :: 0 <= i < id ==> ids[keys[i]] == i
      {
        assert keys[..id + 1] == keys[..id] + [keys[id]];
        ids := ids[keys[id] := id];
        active := active + {keys[id]};
      }
      assert keys[..|keys|] == keys;
      nodeList, isValidatorMap, isActiveValidatorMap := keys, ids, active;
    }

    predicate IsSizeValid(newSize: int) {
      4 <= newSize <= |nodeList|
    }

    function GetNumberOfValidator(): nat
      reads this
    {
      |isActiveValidatorMap|
    }

    predicate IsValidator(k: Key) {
      k in isValidatorMap
    }

    function GetIndexOfValidator(k: Key): int {
      if k in isValidatorMap then isValidatorMap[k] else -1
    }

    method CheckIfValidatorsAreNodes(newList: seq<Key>) returns (ok: bool)
      requires Valid()
      ensures ok <==> forall k :: k in newList ==> k in nodeList
    {
      for i := 0 to |newList|
        invariant forall j :: 0 <= j < i ==> newList[j] in nodeList
      {
        if !IsValidator(newList[i]) {
          return false;
        }
      }
      return true;
    }

    method SetNewListOfValidator(newList: seq<Key>) returns (ok: bool)
      requires Valid()
      modifies this
      ensures Valid()
      ensures ok <==> forall k :: k in newList ==> k in nodeList
      ensures isActiveValidatorMap == if ok then set k | k in newList else old(isActiveValidatorMap)
    {
      ok := CheckIfValidatorsAreNodes(newList);
      if !ok {
        return;
      }
      isActiveValidatorMap := {};
      for i := 0 to |newList|
        invariant isActiveValidatorMap == set k | k in newList[..i]
      {
        assert newList[..i + 1] == newList[..i] + [newList[i]];
        isActiveValidatorMap := isActiveValidatorMap + {newList[i]};
      }
      assert newList[..|newList|] == newList;
    }

    method SetNumberOfNode(newSize: int) returns (ok: bool)
      requires Valid()
      modifies this
      ensures Valid()
      ensures ok <==> 4 <= newSize <= |nodeList|
      ensures isActiveValidatorMap ==
        if ok && |old(isActiveValidatorMap)| != newSize then set k | k in nodeList[..newSize]
        else old(isActiveValidatorMap)
    {
      if IsSizeValid(newSize) {
        if GetNumberOfValidator() != newSize {
          var updated := SetNewListOfValidator(nodeList[..newSize]);
          assert forall k :: k in nodeList[..newSize] ==> k in nodeList;
        }
        return true;
      }
      return false;
    }

    // The map is ranged over in no particular order; sorting makes the result a function of
    // the active set.
    method GetValidatorIndexList() returns (listIndex: seq<int>)
      requires Valid()
      ensures listIndex == ActiveIndices(nodeList, isActiveValidatorMap)
    {
      listIndex := [];
      var todo := isActiveValidatorMap;
      while todo != {}
        invariant todo <= isActiveValidatorMap
        invariant Distinct(listIndex)
        invariant forall i :: i in listIndex <==> 0 <= i < |nodeList| && nodeList[i] in isActiveValidatorMap - todo
      {
        var key :| key in todo;
        todo := todo - {key};
        assert key in nodeList;
        var id := isValidatorMap[key];
        listIndex := listIndex + [id];
      }
      SortedIdsAreActiveIndices(nodeList, isActiveValidatorMap, listIndex);
      listIndex := SortInts(listIndex);
    }

    method GetValidatorList() returns (list: seq<Key>)
      requires Valid()
      ensures var idx := ActiveIndices(nodeList, isActiveValidatorMap);
        && |list| == |idx| == |isActiveValidatorMap|
        && forall j :: 0 <= j < |list| ==> 0 <= idx[j] < |nodeList| && list[j] == nodeList[idx[j]]
    {
      var listIndex := GetValidatorIndexList();
      ActiveIndicesCount(nodeList, isActiveValidatorMap);
      list := [];
      for j := 0 to |listIndex|
        invariant |list| == j
        invariant forall k :: 0 <= k < j ==> 0 <= listIndex[k] < |nodeList| && list[k] == nodeList[listIndex[k]]
      {
        ActiveIndicesListed(nodeList, isActiveValidatorMap, j);
        list := list + [nodeList[listIndex[j]]];
      }
    }

    method GetActiveValidatorIndexOfValue(index: nat) returns (p: Proposer)
      requires Valid() && index < |isActiveValidatorMap|
      ensures index < |ActiveIndices(nodeList, isActiveValidatorMap)|
      ensures p.id == ActiveIndices(nodeList, isActiveValidatorMap)[index]
      ensures 0 <= p.id < |nodeList| && p.key == nodeList[p.id]
    {
      var list := GetValidatorList();
      var chosen := list[index];
      p := Proposer(GetIndexOfValidator(chosen), chosen);
    }
  }
}
