/** The two time-ordered structures of the transaction pool and the insertion they share. */
module SortedHashes {
  import opened Wrappers
  import opened Ledger

  type TxMap = map<Bytes, Transaction>

  // A hash missing from the map reads as a zero transaction.
  function Time(txs: TxMap, h: Bytes): int {
    if h in txs then txs[h].timestamp else 0
  }

  predicate InOrder(s: seq<Bytes>, txs: TxMap) {
    forall i, j :: 0 <= i < j < |s| ==> Time(txs, s[i]) <= Time(txs, s[j])
  }

  // Scanning from the end, the first place not before a later element.
  function Place(s: seq<Bytes>, txs: TxMap, t: int): (i: nat)
    ensures i <= |s|
    ensures i == 0 || Time(txs, s[i - 1]) <= t
    ensures forall j :: i <= j < |s| ==> Time(txs, s[j]) > t
  {
    if s == [] || Time(txs, s[|s| - 1]) <= t then |s| else Place(s[..|s| - 1], txs, t)
  }

  function InsertAt(s: seq<Bytes>, i: nat, h: Bytes): seq<Bytes>
    requires i <= |s|
  {
    s[..i] + [h] + s[i..]
  }

  // Stable insertion: after every element that is not later.
  function Inserted(s: seq<Bytes>, txs: TxMap, h: Bytes): seq<Bytes> {
    InsertAt(s, Place(s, txs, Time(txs, h)), h)
  }

  function RemoveFirst(s: seq<Bytes>, h: Bytes): seq<Bytes> {
    if s == [] then []
    else if s[0] == h then s[1..]
    else [s[0]] + RemoveFirst(s[1..], h)
  }

  // sort.Search over [lo, hi) for the first element later than t.
  function Search(s: seq<Bytes>, txs: TxMap, t: int, lo: nat, hi: nat): (i: nat)
    requires lo <= hi <= |s|
    ensures lo <= i <= hi
    decreases hi - lo
  {
    if lo == hi then lo
    else
      var mid := (lo + hi) / 2;
      if Time(txs, s[mid]) > t then Search(s, txs, t, lo, mid) else Search(s, txs, t, mid + 1, hi)
  }

  // ---- lemmas ----

  lemma PlaceIs(s: seq<Bytes>, txs: TxMap, t: int, i: nat)
    requires i <= |s|
    requires i == 0 || Time(txs, s[i - 1]) <= t
    requires forall j :: i <= j < |s| ==> Time(txs, s[j]) > t
    ensures Place(s, txs, t) == i
  {
  }

  // On an ordered list binary search finds the place the backward scan finds.
  lemma {:induction false} SearchIsPlace(s: seq<Bytes>, txs: TxMap, t: int, lo: nat, hi: nat)
    requires InOrder(s, txs) && lo <= hi <= |s|
    requires forall j :: 0 <= j < lo ==> Time(txs, s[j]) <= t
    requires forall j :: hi <= j < |s| ==> Time(txs, s[j]) > t
    ensures Search(s, txs, t, lo, hi) == Place(s, txs, t)
    decreases hi - lo
  {
    if lo == hi {
      PlaceIs(s, txs, t, lo);
    } else {
      var mid := (lo + hi) / 2;
      if Time(txs, s[mid]) > t {
        SearchIsPlace(s, txs, t, lo, mid);
      } else {
        SearchIsPlace(s, txs, t, mid + 1, hi);
      }
    }
  }

  lemma InsertKeepsOrder(s: seq<Bytes>, txs: TxMap, h: Bytes)
    requires InOrder(s, txs)
    ensures InOrder(Inserted(s, txs, h), txs)
  {
  }

  lemma RemoveFirstAt(s: seq<Bytes>, h: Bytes, i: nat)
    requires i < |s| && s[i] == h && h !in s[..i]
    ensures RemoveFirst(s, h) == s[..i] + s[i + 1..]
  {
    if i > 0 {
      assert s[0] in s[..i];
      assert s[1..][..i - 1] == s[..i][1..];
      RemoveFirstAt(s[1..], h, i - 1);
      assert s[..i] + s[i + 1..] == [s[0]] + (s[1..][..i - 1] + s[1..][i..]);
    }
  }

  lemma RemoveAbsent(s: seq<Bytes>, h: Bytes)
    requires h !in s
    ensures RemoveFirst(s, h) == s
  {
  }

  // ---- the heap list ----

  class LinkedHash {
    const hash: Bytes
    var prevLink: LinkedHash?
    var postLink: LinkedHash?

    constructor (hash: Bytes, prev: LinkedHash?, post: LinkedHash?)
      ensures this.hash == hash && prevLink == prev && postLink == post
    {
      this.hash := hash;
      prevLink, postLink := prev, post;
    }
  }

  class SortedLinkedList {
    var start: LinkedHash?
    var end: LinkedHash?

    ghost var links: seq<LinkedHash>
    ghost var contents: seq<Bytes>
    ghost var repr: set<LinkedHash>  // every link ever part of the list

    // Forward and backward links mirror each other and spell out contents.
    ghost predicate Valid()
      reads this, repr
    {
      && |links| == |contents|
      && (forall i :: 0 <= i < |links| ==> links[i] in repr)
      && (forall i, j :: 0 <= i < j < |links| ==> links[i] != links[j])
      && (forall i :: 0 <= i < |links| ==> links[i].hash == contents[i])
      && (forall i {:trigger links[i].prevLink} :: 1 <= i < |links| ==> links[i].prevLink == links[i - 1])
      && (forall i {:trigger links[i].postLink} :: 0 <= i < |links| - 1 ==> links[i].postLink == links[i + 1])
      && (|links| == 0 ==> start == null && end == null)
      && (|links| > 0 ==> start == links[0] && start.prevLink == null
                          && end == links[|links| - 1] && end.postLink == null)
    }

    constructor ()
      ensures Valid() && contents == [] && repr == {}
    {
      start, end, links, contents, repr := null, null, [], [], {};
    }

    // mapTx is what the list's map pointer refers to at the moment of the call.
    method Insert(hash: Bytes, mapTx: TxMap)
      requires Valid()
      modifies this, repr
      ensures Valid() && contents == Inserted(old(contents), mapTx, hash)
      ensures fresh(repr - old(repr))
    {
      if start == null {
        var link := new LinkedHash(hash, null, null);
        start, end := link, link;
        links, contents, repr := [link], [hash], repr + {link};
        return;
      }
      var currentLink := end;
      var timestamp := Time(mapTx, hash);
      ghost var i: nat := |links|;
      while currentLink != null && Time(mapTx, currentLink.hash) > timestamp
        invariant i <= |links|
        invariant currentLink == if i > 0 then links[i - 1] else null
        invariant forall j :: i <= j < |links| ==> Time(mapTx, contents[j]) > timestamp
        decreases i
      {
        currentLink := currentLink.prevLink;
        i := i - 1;
      }
      PlaceIs(contents, mapTx, timestamp, i);
      if currentLink == null {
        LinkFirst(hash);
        assert InsertAt(old(contents), 0, hash) == [hash] + old(contents);
      } else {
        LinkAfter(currentLink, i, hash);
      }
    }

    // Lines 104-113.
    method LinkFirst(hash: Bytes)
      requires Valid() && start != null
      modifies this, repr
      ensures Valid() && contents == [hash] + old(contents)
      ensures fresh(repr - old(repr))
    {
      var oldFirst := start;
      start := new LinkedHash(hash, null, oldFirst);
      oldFirst.prevLink := start;
      links, contents, repr := [start] + links, [hash] + contents, repr + {start};
      assert forall i :: 1 <= i < |links| ==> links[i] == old(links)[i - 1];
    }

    // Lines 115-125: hash becomes element i, right after link.
    method LinkAfter(link: LinkedHash, ghost i: nat, hash: Bytes)
      requires Valid() && 0 < i <= |links| && link == links[i - 1]
      modifies this, repr
      ensures Valid() && contents == InsertAt(old(contents), i, hash)
      ensures fresh(repr - old(repr))
    {
      var oldNext := link.postLink;
      var next := new LinkedHash(hash, link, oldNext);
      link.postLink := next;
      if oldNext != null {
        oldNext.prevLink := next;
      } else {
        end := next;
      }
      links, contents, repr := links[..i] + [next] + links[i..], InsertAt(contents, i, hash), repr + {next};
      assert forall k :: 0 <= k < i ==> links[k] == old(links)[k];
      assert forall k :: i < k < |links| ==> links[k] == old(links)[k - 1];
    }

    method Remove(hash: Bytes)
      requires Valid()
      modifies this, repr
      ensures Valid() && contents == RemoveFirst(old(contents), hash)
      ensures repr == old(repr)
    {
      if start == null {
        return;
      }
      var link := start;
      ghost var i: nat := 0;
      while link.hash != hash
        invariant i < |links| && link == links[i]
        invariant hash !in contents[..i]
        decreases |links| - i
      {
        if link.postLink == null {
          assert contents == contents[..i] + [contents[i]];
          RemoveAbsent(contents, hash);
          return;
        }
        link := link.postLink;
        i := i + 1;
      }
      RemoveFirstAt(contents, hash, i);
      Unlink(link, i);
    }

    // Lines 163-172.
    method Unlink(link: LinkedHash, ghost i: nat)
      requires Valid() && i < |links| && link == links[i]
      modifies this, repr
      ensures Valid() && contents == old(contents)[..i] + old(contents)[i + 1..]
      ensures repr == old(repr)
    {
      ghost var before := links;
      assert link.prevLink == (if i > 0 then before[i - 1] else null);
      assert link.postLink == (if i + 1 < |before| then before[i + 1] else null);
      if link.prevLink == null {
        start := link.postLink;
      } else {
        link.prevLink.postLink := link.postLink;
      }
      if link.postLink == null {
        end := link.prevLink;
      } else {
        link.postLink.prevLink := link.prevLink;
      }
      links, contents := before[..i] + before[i + 1..], contents[..i] + contents[i + 1..];
      forall k | 0 <= k < |links|
        ensures links[k] == before[if k < i then k else k + 1]
      {
      }
    }

    method GetFirstsElem(n: nat) returns (r: seq<Bytes>)
      requires Valid()
      ensures r == contents[..if n <= |contents| then n else |contents|]
    {
      r := [];
      var link := start;
      while link != null && |r| < n
        invariant |r| <= |contents| && |r| <= n && r == contents[..|r|]
        invariant link == if |r| < |links| then links[|r|] else null
        decreases |contents| - |r|
      {
        r := r + [link.hash];
        link := link.postLink;
      }
    }

    // Walking past the end would dereference nil.
    method GetElemNumber(n: nat) returns (h: Bytes)
      requires Valid() && n < |contents|
      ensures h == contents[n]
    {
      var link := start;
      for i := 0 to n
        invariant link == links[i]
      {
        link := link.postLink;
      }
      return link.hash;
    }
  }

  // ---- the slice ----

  class SortedList {
    var listHash: seq<Bytes>

    constructor ()
      ensures listHash == []
    {
      listHash := [];
    }

    method Insert(hash: Bytes, mapTx: TxMap)
      modifies this
      ensures
        listHash
        == InsertAt(old(listHash), Search(old(listHash), mapTx, Time(mapTx, hash), 0, |old(listHash)|), hash)
    {
      var i, j := 0, |listHash|;
      while i < j
        invariant 0 <= i <= j <= |listHash|
        invariant Search(listHash, mapTx, Time(mapTx, hash), i, j)
               == Search(listHash, mapTx, Time(mapTx, hash), 0, |listHash|)
      {
        var mid := (i + j) / 2;
        if Time(mapTx, listHash[mid]) > Time(mapTx, hash) {
          j := mid;
        } else {
          i := mid + 1;
        }
      }
      listHash := listHash[..i] + [hash] + listHash[i..];
    }

    method Remove(hash: Bytes)
      modifies this
      ensures listHash == RemoveFirst(old(listHash), hash)
    {
      for i := 0 to |listHash|
        invariant hash !in listHash[..i]
      {
        if listHash[i] == hash {
          RemoveFirstAt(listHash, hash, i);
          listHash := listHash[..i] + listHash[i + 1..];
          return;
        }
      }
      RemoveAbsent(listHash, hash);
    }
  }

  // ---- the same operations on both ----

  datatype Op = AddTx(tx: Transaction) | DropTx(hash: Bytes)

  datatype Held = Held(txs: TxMap, list: seq<Bytes>)

  // How the pool drives either structure: the map changes first, then the list.
  function ApplyScan(s: Held, op: Op): Held {
    match op
    case AddTx(tx) => var txs := s.txs[tx.hash := tx]; Held(txs, Inserted(s.list, txs, tx.hash))
    case DropTx(h) => if h in s.txs then Held(s.txs - {h}, RemoveFirst(s.list, h)) else s
  }

  function ApplySearch(s: Held, op: Op): Held {
    match op
    case AddTx(tx) =>
      var txs := s.txs[tx.hash := tx];
      Held(txs, InsertAt(s.list, Search(s.list, txs, tx.timestamp, 0, |s.list|), tx.hash))
    case DropTx(h) => if h in s.txs then Held(s.txs - {h}, RemoveFirst(s.list, h)) else s
  }

  function RunScan(ops: seq<Op>): Held {
    if ops == [] then Held(map[], []) else ApplyScan(RunScan(ops[..|ops| - 1]), ops[|ops| - 1])
  }

  function RunSearch(ops: seq<Op>): Held {
    if ops == [] then Held(map[], []) else ApplySearch(RunSearch(ops[..|ops| - 1]), ops[|ops| - 1])
  }

  // No hash is added while it is still held.
  predicate FreshAdds(ops: seq<Op>) {
    forall i :: 0 <= i < |ops| && ops[i].AddTx? ==> ops[i].tx.hash !in RunScan(ops[..i]).txs
  }

  // The list holds exactly the keys of the map, each once, in time order.
  ghost predicate Coherent(s: seq<Bytes>, txs: TxMap) {
    Distinct(s) && (forall h :: h in s <==> h in txs) && InOrder(s, txs)
  }

  lemma InsertCoherent(s: seq<Bytes>, txs: TxMap, tx: Transaction)
    requires Coherent(s, txs) && tx.hash !in txs
    ensures InOrder(s, txs[tx.hash := tx])
    ensures Coherent(Inserted(s, txs[tx.hash := tx], tx.hash), txs[tx.hash := tx])
  {
    var txs' := txs[tx.hash := tx];
    assert forall i :: 0 <= i < |s| ==> s[i] in txs && Time(txs', s[i]) == Time(txs, s[i]);
    InsertKeepsOrder(s, txs', tx.hash);
    InsertElements(s, txs', tx.hash);
  }

  lemma InsertElements(s: seq<Bytes>, txs: TxMap, h: Bytes)
    requires Distinct(s) && h !in s
    ensures Distinct(Inserted(s, txs, h))
    ensures forall x :: x in Inserted(s, txs, h) <==> x in s || x == h
  {
    hide Place, Time;
    var i := Place(s, txs, Time(txs, h));
    var a, b := s[..i], s[i..];
    assert s == a + b;
    assert forall x :: x in s <==> x in a || x in b;
  }

  lemma {:induction false} RemoveElements(s: seq<Bytes>, txs: TxMap, h: Bytes)
    requires Distinct(s) && InOrder(s, txs)
    ensures Distinct(RemoveFirst(s, h)) && InOrder(RemoveFirst(s, h), txs)
    ensures forall x :: x in RemoveFirst(s, h) <==> x in s && x != h
  {
    if s != [] {
      assert s == [s[0]] + s[1..];
      if s[0] != h {
        RemoveElements(s[1..], txs, h);
        var r := RemoveFirst(s[1..], h);
        forall j | 0 <= j < |r|
          ensures r[j] != s[0] && Time(txs, s[0]) <= Time(txs, r[j])
        {
          assert r[j] in r;
          assert r[j] in s[1..];
        }
      }
    }
  }

  lemma RemoveCoherent(s: seq<Bytes>, txs: TxMap, h: Bytes)
    requires Coherent(s, txs) && h in txs
    ensures Coherent(RemoveFirst(s, h), txs - {h})
  {
    RemoveElements(s, txs, h);
    var r := RemoveFirst(s, h);
    assert forall k :: 0 <= k < |r| ==> r[k] in r;
  }

  // For operations that never re-add a held hash the backward scan and the binary search hold
  // the same list, which is coherent with the map.
  lemma {:induction false} ScanIsSearch(ops: seq<Op>)
    requires FreshAdds(ops)
    ensures RunScan(ops) == RunSearch(ops)
    ensures Coherent(RunScan(ops).list, RunScan(ops).txs)
  {
    if ops != [] {
      var before, op := ops[..|ops| - 1], ops[|ops| - 1];
      forall i | 0 <= i < |before| && before[i].AddTx?
        ensures before[i].tx.hash !in RunScan(before[..i]).txs
      {
        assert before[..i] == ops[..i];
      }
      ScanIsSearch(before);
      var s := RunScan(before);
      match op
      case AddTx(tx) =>
        InsertCoherent(s.list, s.txs, tx);
        SearchIsPlace(s.list, s.txs[tx.hash := tx], tx.timestamp, 0, |s.list|);
      case DropTx(h) =>
        if h in s.txs {
          RemoveCoherent(s.list, s.txs, h);
        }
    }
  }

  // Adding a hash that is still held is exactly what breaks the pool: the list gets it twice.
  lemma AddCoherentIffFresh(s: seq<Bytes>, txs: TxMap, tx: Transaction)
    requires Coherent(s, txs)
    ensures Coherent(Inserted(s, txs[tx.hash := tx], tx.hash), txs[tx.hash := tx]) <==> tx.hash !in txs
  {
    var txs' := txs[tx.hash := tx];
    if tx.hash !in txs {
      InsertCoherent(s, txs, tx);
    } else {
      var k :| 0 <= k < |s| && s[k] == tx.hash;
      var i, r := Place(s, txs', Time(txs', tx.hash)), Inserted(s, txs', tx.hash);
      assert r[i] == tx.hash && r[if k < i then k else k + 1] == tx.hash;
    }
  }
}
