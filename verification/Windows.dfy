/** Two sliding windows over the last measurements: a linked queue and a ring. */
module Windows {
  function Sum(s: seq<real>): real {
    if s == [] then 0.0 else Sum(s[..|s| - 1]) + s[|s| - 1]
  }

  function Zeros(n: nat): (z: seq<real>)
    ensures |z| == n && forall i :: 0 <= i < n ==> z[i] == 0.0
  {
    seq(n, i => 0.0)
  }

  // The last size items, with zeros in front while there are fewer.
  function Window(size: nat, items: seq<real>): (w: seq<real>)
    ensures |w| == size
  {
    (Zeros(size) + items)[|items|..]
  }

  lemma WindowMoves(size: nat, items: seq<real>, x: real)
    requires size > 0
    ensures Window(size, items + [x]) == Window(size, items)[1..] + [x]
  {
    assert Zeros(size) + (items + [x]) == (Zeros(size) + items) + [x];
  }

  lemma WindowIsSuffix(size: nat, items: seq<real>)
    ensures size <= |items| ==> Window(size, items) == items[|items| - size..]
    ensures size > |items| ==> Window(size, items) == Zeros(size - |items|) + items
  {
  }

  lemma {:induction false} SumAppend(a: seq<real>, b: seq<real>)
    ensures Sum(a + b) == Sum(a) + Sum(b)
  {
    if b == [] {
      assert a + b == a;
    } else {
      SumAppend(a, b[..|b| - 1]);
      assert (a + b)[..|a + b| - 1] == a + b[..|b| - 1];
    }
  }

  lemma {:induction false} SumZeros(n: nat)
    ensures Sum(Zeros(n)) == 0.0
  {
    if n > 0 {
      SumZeros(n - 1);
      assert Zeros(n)[..n - 1] == Zeros(n - 1);
    }
  }

  class Cell {
    var value: real
    var next: Cell?

    constructor (value: real)
      ensures this.value == value && next == null
    {
      this.value := value;
      next := null;
    }
  }

  // The cells from first to last, chained by their next pointers.
  ghost predicate Chained(cells: seq<Cell>)
    reads cells
  {
    forall i :: 0 <= i < |cells| - 1 ==> cells[i].next == cells[i + 1]
  }

  ghost function Values(cells: seq<Cell>): (v: seq<real>)
    reads cells
    ensures |v| == |cells| && forall i :: 0 <= i < |v| ==> v[i] == cells[i].value
  {
    if cells == [] then [] else Values(cells[..|cells| - 1]) + [cells[|cells| - 1].value]
  }

  class FixSizeQueue {
    const size: nat
    var first: Cell
    var last: Cell
    ghost var cells: seq<Cell>
    ghost var items: seq<real>

    ghost predicate Valid()
      reads this, cells
    {
      && size >= 2 && |cells| == size
      && first == cells[0] && last == cells[size - 1]
      && Chained(cells) && (forall i, j :: 0 <= i < j < size ==> cells[i] != cells[j])
      && Values(cells) == Window(size, items)
    }

    constructor (size: nat)
      requires size >= 2
      ensures Valid() && this.size == size && items == [] && fresh(cells)
    {
      this.size := size;
      var head := new Cell(0.0);
      var current := head;
      ghost var made := [head];
      for i := 0 to size - 1
        invariant |made| == i + 1 && made[0] == head && made[i] == current && fresh(made)
        invariant Chained(made) && forall k :: 0 <= k <= i ==> made[k].value == 0.0
        invariant forall k, l :: 0 <= k < l <= i ==> made[k] != made[l]
      {
        var cell := new Cell(0.0);
        current.next := cell;
        current := cell;
        made := made + [cell];
      }
      first := head;
      last := current;
      cells := made;
      items := [];
      assert Values(made) == Window(size, []);
    }

    method Append(item: real)
      requires Valid()
      modifies this, cells
      ensures Valid() && items == old(items) + [item] && fresh(set c | c in cells && c !in old(cells))
    {
      hide Window, Values;
      ghost var was := Values(cells);
      var newLast := new Cell(item);
      last.next := newLast;
      last := newLast;
      assert first.next == cells[1];
      first := first.next;
      WindowMoves(size, items, item);
      cells := cells[1..] + [newLast];
      items := items + [item];
      assert Values(cells) == was[1..] + [item];
    }

    method Mean() returns (mean: real)
      requires Valid()
      ensures mean == Sum(Window(size, items)) / size as real
    {
      var sum := 0.0;
      var current: Cell? := first;
      for i := 0 to size
        invariant i < size ==> current == cells[i]
        invariant sum == Sum(Values(cells)[..i])
      {
        assert Values(cells)[..i + 1][..i] == Values(cells)[..i];
        sum := sum + current.value;
        current := current.next;
      }
      assert Values(cells)[..size] == Values(cells);
      return sum / size as real;
    }
  }

  // No queue is made for fewer than two places.
  method NewFixSizeQueue(size: int) returns (queue: FixSizeQueue?)
    ensures queue == null <==> size < 2
    ensures queue != null ==> queue.Valid() && queue.size == size && queue.items == []
  {
    if size < 2 {
      return null;
    }
    queue := new FixSizeQueue(size);
  }

  class FixTor {
    const size: nat
    const data: array<real>
    var currentIndex: nat
    var lastMean: real
    ghost var items: seq<real>

    // From the place that is written next, the ring reads as the window.
    ghost predicate Valid()
      reads this, data
    {
      && size > 0 && data.Length == size && currentIndex < size
      && data[currentIndex..] + data[..currentIndex] == Window(size, items)
      && lastMean == Sum(Window(size, items)) / size as real
    }

    constructor (size: nat)
      requires size > 0
      ensures Valid() && this.size == size && items == [] && fresh(data)
    {
      this.size := size;
      data := new real[size](i => 0.0);
      currentIndex := 0;
      lastMean := 0.0;
      items := [];
      new;
      assert data[0..] + data[..0] == Window(size, []) == Zeros(size);
      SumZeros(size);
    }

    method Append(item: real)
      requires Valid()
      modifies this, data
      ensures Valid() && items == old(items) + [item]
    {
      WindowMoves(size, items, item);
      ghost var was, at := data[..], currentIndex;
      data[currentIndex] := item;
      currentIndex := (currentIndex + 1) % size;
      items := items + [item];
      RingMoves(was, at, item);
      assert data[..] == was[at := item];
      lastMean := CurrentMean();
    }

    method CurrentMean() returns (mean: real)
      requires size > 0 && data.Length == size && currentIndex < size
      requires data[currentIndex..] + data[..currentIndex] == Window(size, items)
      ensures mean == Sum(Window(size, items)) / size as real
    {
      var sum := 0.0;
      for i := 0 to data.Length
        invariant sum == Sum(data[..i])
      {
        assert data[..i + 1][..i] == data[..i];
        sum := sum + data[i];
      }
      assert data[..data.Length] == data[..currentIndex] + data[currentIndex..];
      SumAppend(data[..currentIndex], data[currentIndex..]);
      SumAppend(data[currentIndex..], data[..currentIndex]);
      return sum / size as real;
    }

    method Mean() returns (mean: real)
      requires Valid()
      ensures mean == Sum(Window(size, items)) / size as real
    {
      return lastMean;
    }
  }

  // Overwriting the oldest place and stepping on moves the window that the ring stands for.
  lemma RingMoves(was: seq<real>, at: nat, item: real)
    requires at < |was|
    ensures var now, next := was[at := item], (at + 1) % |was|;
      now[next..] + now[..next] == (was[at..] + was[..at])[1..] + [item]
  {
    var now := was[at := item];
    assert now[..at + 1] == was[..at] + [item] && now[at + 1..] == was[at + 1..];
    assert (was[at..] + was[..at])[1..] == was[at + 1..] + was[..at];
    if at + 1 == |was| {
      assert (at + 1) % |was| == 0 && now[0..] == now[..at + 1];
    } else {
      assert (at + 1) % |was| == at + 1;
    }
  }

  // Zeros do not count towards the sum: a window is worth its items, all of them while they
  // are few and the last size of them from then on.
  lemma WindowSum(size: nat, items: seq<real>)
    ensures Sum(Window(size, items)) == Sum(if size <= |items| then items[|items| - size..] else items)
  {
    WindowIsSuffix(size, items);
    if size > |items| {
      SumAppend(Zeros(size - |items|), items);
      SumZeros(size - |items|);
    }
  }

  // From zero on, each item counts once when it comes and stops counting size items later.
  lemma WindowSlides(size: nat, items: seq<real>, x: real)
    requires size > 0
    ensures Sum(Window(size, [])) == 0.0
    ensures Sum(Window(size, items + [x]))
         == Sum(Window(size, items)) + x - if size <= |items| then items[|items| - size] else 0.0
  {
    var w := Window(size, items);
    WindowSum(size, []);
    WindowMoves(size, items, x);
    WindowIsSuffix(size, items);
    assert w == [w[0]] + w[1..];
    SumAppend([w[0]], w[1..]);
    SumAppend(w[1..], [x]);
    SumOne(w[0]);
    SumOne(x);
  }

  lemma SumOne(x: real)
    ensures Sum([x]) == x
  {
    assert [x][..0] == [];
  }

  // Fed the same items, ring and queue of one size hold values of the same sum.
  lemma SameSum(queue: FixSizeQueue, tor: FixTor)
    requires queue.Valid() && tor.Valid() && queue.size == tor.size && queue.items == tor.items
    ensures Sum(Values(queue.cells)) == Sum(tor.data[..])
    ensures tor.lastMean == Sum(tor.data[..]) / tor.size as real
  {
    var i := tor.currentIndex;
    assert tor.data[..] == tor.data[..i] + tor.data[i..];
    SumAppend(tor.data[..i], tor.data[i..]);
    SumAppend(tor.data[i..], tor.data[..i]);
  }
}
