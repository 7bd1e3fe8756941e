/**
 The component registry and its waiters: callbacks that are called once all components they
 need are there, and that may register further components and waiters themselves.
 */
module Waiters {
  // What a callback does when it is called, up to its end or to an exception, which is logged.
  datatype Op = Register(name: string) | CallWhenReady(entry: Entry)

  datatype Entry = Entry(id: int, components: seq<string>, effects: seq<Op>)

  function OpSize(op: Op): (n: nat)
    ensures n > 0
  {
    match op
    case Register(_) => 1
    case CallWhenReady(entry) => 1 + EntrySize(entry)
  }

  function OpsSize(ops: seq<Op>): nat {
    if ops == [] then 0 else OpSize(ops[0]) + OpsSize(ops[1..])
  }

  function EntrySize(e: Entry): (n: nat)
    ensures n > 0
  {
    1 + OpsSize(e.effects)
  }

  function TotalSize(entries: seq<Entry>): nat {
    if entries == [] then 0 else TotalSize(entries[..|entries| - 1]) + EntrySize(entries[|entries| - 1])
  }

  // list.remove: the first equal entry leaves.
  function Without(entries: seq<Entry>, e: Entry): (r: seq<Entry>)
    requires e in entries
    ensures multiset(entries) == multiset(r) + multiset{e}
    ensures TotalSize(entries) == TotalSize(r) + EntrySize(e)
    ensures forall x :: x in r ==> x in entries
    decreases |entries|
  {
    var n := |entries| - 1;
    assert entries == entries[..n] + [entries[n]];
    if e in entries[..n] then
      var r := Without(entries[..n], e);
      assert (r + [entries[n]])[..|r + [entries[n]]| - 1] == r;
      r + [entries[n]]
    else entries[..n]
  }

  class Core {
    var components: set<string>
    var waiters: seq<Entry>
    // every entry that ever waited, and those that were called
    ghost var added: multiset<Entry>
    ghost var called: multiset<Entry>

    predicate Ready(e: Entry)
      reads this
    {
      forall i :: 0 <= i < |e.components| ==> e.components[i] in components
    }

    // Nothing is lost and nothing is called twice.
    ghost predicate Valid()
      reads this
    {
      && added == called + multiset(waiters)
      && forall e :: e in called ==> Ready(e)
    }

    ghost predicate Quiet()
      reads this
    {
      forall e :: e in waiters ==> !Ready(e)
    }

    constructor ()
      ensures Valid() && Quiet() && components == {} && added == multiset{}
    {
      components, waiters := {}, [];
      added, called := multiset{}, multiset{};
    }

    method RegisterComponent(name: string)
      requires Valid()
      modifies this
      ensures Valid() && Quiet()
      ensures forall e :: called[e] == if forall c :: c in e.components ==> c in components then added[e] else 0
      ensures old(components) + {name} <= components && old(added) <= added && old(called) <= called
      ensures TotalSize(waiters) <= old(TotalSize(waiters))
      decreases TotalSize(waiters) + 1, 2
    {
      components := components + {name};
      TryWaiters();
    }

    method WaitFor(entry: Entry)
      requires Valid()
      modifies this
      ensures Valid() && (old(Quiet()) ==> Quiet())
      ensures old(components) <= components && old(added) + multiset{entry} <= added && old(called) <= called
      ensures TotalSize(waiters) <= old(TotalSize(waiters)) + EntrySize(entry)
      decreases TotalSize(waiters) + 1 + EntrySize(entry), 2
    {
      ghost var before := waiters;
      waiters := waiters + [entry];
      added := added + multiset{entry};
      assert waiters[..|waiters| - 1] == before;
      var ready := TryWaiter(entry);
    }

    method TryWaiter(entry: Entry) returns (ready: bool)
      requires Valid()
      modifies this
      ensures Valid()
      ensures old(components) <= components && old(added) <= added && old(called) <= called
      ensures ready <==> old(entry in waiters && Ready(entry))
      ensures ready ==> TotalSize(waiters) < old(TotalSize(waiters)) && called >= old(called) + multiset{entry}
      ensures ready && old(forall e :: e in Without(waiters, entry) ==> !Ready(e)) ==> Quiet()
      ensures !ready ==>
                components == old(components) && waiters == old(waiters) && added == old(added) && called == old(called)
      decreases TotalSize(waiters), 0
    {
      if entry !in waiters {
        return false;
      }
      for i := 0 to |entry.components|
        invariant forall k :: 0 <= k < i ==> entry.components[k] in components
      {
        if entry.components[i] !in components {
          return false;
        }
      }
      waiters := Without(waiters, entry);
      called := called + multiset{entry};
      RunCallback(entry.effects);
      return true;
    }

    method RunCallback(ops: seq<Op>)
      requires Valid()
      modifies this
      ensures Valid() && (old(Quiet()) ==> Quiet())
      ensures old(components) <= components && old(added) <= added && old(called) <= called
      ensures TotalSize(waiters) <= old(TotalSize(waiters)) + OpsSize(ops)
      decreases TotalSize(waiters) + OpsSize(ops), 3
    {
      if ops == [] {
        return;
      }
      assert OpsSize(ops) == OpSize(ops[0]) + OpsSize(ops[1..]);
      match ops[0] {
        case Register(name) => RegisterComponent(name);
        case CallWhenReady(entry) =>
          assert OpSize(ops[0]) == 1 + EntrySize(entry);
          WaitFor(entry);
      }
      RunCallback(ops[1..]);
    }

    method TryWaiters()
      requires Valid()
      modifies this
      ensures Valid() && Quiet()
      ensures forall e :: called[e] == if forall c :: c in e.components ==> c in components then added[e] else 0
      ensures old(components) <= components && old(added) <= added && old(called) <= called
      ensures TotalSize(waiters) <= old(TotalSize(waiters))
      decreases TotalSize(waiters), 1
    {
      var changed := true;
      while changed
        invariant Valid() && (!changed ==> Quiet())
        invariant old(components) <= components && old(added) <= added && old(called) <= called
        invariant TotalSize(waiters) <= old(TotalSize(waiters))
        decreases TotalSize(waiters), changed
      {
        changed := false;
        var entries := waiters;
        ghost var known := components;
        for i := 0 to |entries|
          invariant Valid()
          invariant old(components) <= components && old(added) <= added && old(called) <= called
          invariant if changed then TotalSize(waiters) < TotalSize(entries)
                    else waiters == entries && components == known && forall k :: 0 <= k < i ==> !Ready(entries[k])
          invariant TotalSize(entries) <= old(TotalSize(waiters))
        {
          var ready := TryWaiter(entries[i]);
          if ready {
            changed := true;
          }
        }
      }
      forall e
        ensures called[e] == if forall c :: c in e.components ==> c in components then added[e] else 0
      {
        CalledIffReady(this, e);
      }
    }
  }

  // At rest a waiter has been called, as often as it was added, exactly if all its components
  // are registered.
  lemma CalledIffReady(core: Core, e: Entry)
    requires core.Valid() && core.Quiet()
    ensures core.called[e] == if forall c :: c in e.components ==> c in core.components then core.added[e] else 0
  {
    if core.Ready(e) {
      assert e !in core.waiters;
    } else {
      assert e !in core.called;
    }
  }
}
