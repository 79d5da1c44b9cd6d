/** The hooks that move clocks between threads: each critical section is one step of
    the detector. */
module Hooks {
  import opened Clocks
  import opened Detector
  import opened Causality

  lemma JoinZero(c: Clock)
    ensures Join(Zero(), c) == c && Join(c, Zero()) == c && Join(c, c) == c
  {
  }

  class WebTSan {
    var enabled: bool
    var threadClocks: seq<Clock>
    var published: map<Key, Clock>
    var nextEdgeId: nat

    ghost predicate Valid() reads this {
      && |threadClocks| == MAX_THREADS
      && nextEdgeId >= 1
      && forall id: nat :: Message(id) in published ==> 1 <= id < nextEdgeId
    }

    /** The detector's state but for the shadow. */
    ghost function Value(): (s: State)
      requires Valid()
      reads this
      ensures s.Valid()
    {
      State(threadClocks, published, [])
    }

    /** The step a hook is to take. */
    ghost function After(t: Tid, op: Op, k: Key): State
      requires Valid()
      reads this
    {
      if enabled then SyncStep64(HOOKS, Value(), t, op, k) else Value()
    }

    constructor ()
      ensures Valid() && !enabled && Value() == State(seq(MAX_THREADS, _ => Zero()), map[], [])
    {
      enabled := false;
      threadClocks := seq(MAX_THREADS, _ => Zero());
      published := map[];
      nextEdgeId := 1;
    }

    // Acquire and release.

    method Acquire(tid: Tid, address: nat)
      requires Valid()
      modifies this`threadClocks
      ensures Valid() && Value() == old(After(tid, Load, Location(address)))
    {
      if !enabled {
        return;
      }
      JoinZero(threadClocks[tid]);
      var k := Location(address);
      if k in published {
        threadClocks := threadClocks[tid := Join(threadClocks[tid], published[k])];
      }
    }

    method Release(tid: Tid, address: nat)
      requires Valid()
      modifies this`threadClocks, this`published
      ensures Valid() && Value() == old(After(tid, Store, Location(address)))
    {
      if !enabled {
        return;
      }
      var k := Location(address);
      published := published[k := Join(if k in published then published[k] else Zero(), threadClocks[tid])];
      threadClocks := threadClocks[tid := Tick64(threadClocks[tid], tid)];
    }

    method OnAtomicsWaitComplete(tid: Tid, location: nat)
      requires Valid()
      modifies this`threadClocks
      ensures Valid() && Value() == old(After(tid, WaitComplete, Location(location)))
    {
      if enabled {
        Acquire(tid, location);
      }
    }

    method OnAtomicsNotify(tid: Tid, location: nat)
      requires Valid()
      modifies this`threadClocks, this`published
      ensures Valid() && Value() == old(After(tid, Notify, Location(location)))
    {
      if enabled {
        Release(tid, location);
      }
    }

    method OnAtomicsStore(tid: Tid, location: nat)
      requires Valid()
      modifies this`threadClocks, this`published
      ensures Valid() && Value() == old(After(tid, Store, Location(location)))
    {
      if enabled {
        Release(tid, location);
      }
    }

    method OnAtomicsLoad(tid: Tid, location: nat)
      requires Valid()
      modifies this`threadClocks
      ensures Valid() && Value() == old(After(tid, Load, Location(location)))
    {
      if enabled {
        Acquire(tid, location);
      }
    }

    method OnAtomicsRMW(tid: Tid, location: nat)
      requires Valid()
      modifies this`threadClocks, this`published
      ensures Valid() && Value() == old(After(tid, Rmw, Location(location)))
    {
      if enabled {
        Acquire(tid, location);
        Release(tid, location);
      }
    }

    // Mutexes. A tid out of range does nothing.

    method MutexCreate(address: nat)
      requires Valid()
      modifies this`published
      ensures Valid() && forall t: Tid :: Value() == old(After(t, Reset, Location(address)))
      ensures threadClocks == old(threadClocks)
      ensures published == if enabled then old(published) - {Location(address)} else old(published)
    {
      if !enabled {
        return;
      }
      published := published - {Location(address)};
    }

    method MutexDestroy(address: nat)
      requires Valid()
      modifies this`published
      ensures Valid() && forall t: Tid :: Value() == old(After(t, Reset, Location(address)))
      ensures threadClocks == old(threadClocks)
      ensures published == if enabled then old(published) - {Location(address)} else old(published)
    {
      if !enabled {
        return;
      }
      published := published - {Location(address)};
    }

    method MutexPostLock(tid: nat, address: nat)
      requires Valid()
      modifies this`threadClocks
      ensures Valid()
      ensures Value() == if tid < MAX_THREADS then old(After(tid, Lock, Location(address))) else old(Value())
    {
      if !enabled || tid >= MAX_THREADS {
        return;
      }
      JoinZero(threadClocks[tid]);
      var k := Location(address);
      if k in published {
        threadClocks := threadClocks[tid := Join(threadClocks[tid], published[k])];
      }
    }

    method MutexUnlock(tid: nat, address: nat)
      requires Valid()
      modifies this`threadClocks, this`published
      ensures Valid()
      ensures Value() == if tid < MAX_THREADS then old(After(tid, Unlock, Location(address))) else old(Value())
    {
      if !enabled || tid >= MAX_THREADS {
        return;
      }
      var k := Location(address);
      published := published[k := Join(if k in published then published[k] else Zero(), threadClocks[tid])];
      threadClocks := threadClocks[tid := Tick64(threadClocks[tid], tid)];
    }

    method MutexReadLock(tid: nat, address: nat)
      requires Valid()
      modifies this`threadClocks
      ensures Valid()
      ensures Value() == if tid < MAX_THREADS then old(After(tid, ReadLock, Location(address))) else old(Value())
    {
      if !enabled || tid >= MAX_THREADS {
        return;
      }
      JoinZero(threadClocks[tid]);
      var k := Location(address);
      if k in published {
        threadClocks := threadClocks[tid := Join(threadClocks[tid], published[k])];
      }
    }

    method MutexReadUnlock(tid: nat, address: nat)
      requires Valid()
      ensures tid < MAX_THREADS ==> Value() == After(tid, ReadUnlock, Location(address))
    {
    }

    // Messages.

    /** The id of the message sent is new; 0 stands for none. */
    method HappensBefore(sender: Tid) returns (id: nat)
      requires Valid()
      modifies this`published, this`nextEdgeId
      ensures Valid() && (id == 0 <==> !enabled) && Message(id) !in old(Value()).sync
      ensures Value() == old(After(sender, Send, Message(nextEdgeId)))
      ensures id == if enabled then old(nextEdgeId) else 0
    {
      if !enabled {
        return 0;
      }
      id := nextEdgeId;
      nextEdgeId := nextEdgeId + 1;
      JoinZero(threadClocks[sender]);
      published := published[Message(id) := threadClocks[sender]];
    }

    method HappensAfter(receiver: Tid, id: nat)
      requires Valid()
      modifies this`threadClocks, this`published
      ensures Valid() && Value() == old(After(receiver, Receive, Message(id)))
      ensures enabled ==> Message(id) !in published
    {
      JoinZero(threadClocks[receiver]);
      assert Message(id) !in published ==> published - {Message(id)} == published;
      if !enabled || id == 0 {
        return;
      }
      if Message(id) !in published {
        return;
      }
      threadClocks := threadClocks[receiver := Join(threadClocks[receiver], published[Message(id)])];
      published := published - {Message(id)};
    }

    // Threads that take over another's knowledge.

    method ThreadJoin(joiner: nat, child: nat)
      requires Valid()
      modifies this`threadClocks
      ensures Valid()
      ensures Value() == if enabled && joiner < MAX_THREADS && child < MAX_THREADS
                         then Told(old(Value()), child, joiner) else old(Value())
    {
      if !enabled {
        return;
      }
      if joiner >= MAX_THREADS || child >= MAX_THREADS {
        return;
      }
      threadClocks := threadClocks[joiner := Join(threadClocks[joiner], threadClocks[child])];
    }

    method ThreadAbsorb(dst: nat, src: nat)
      requires Valid()
      modifies this`threadClocks
      ensures Valid()
      ensures Value() == if enabled && dst < MAX_THREADS && src < MAX_THREADS
                         then Told(old(Value()), src, dst) else old(Value())
    {
      if !enabled {
        return;
      }
      if dst >= MAX_THREADS || src >= MAX_THREADS {
        return;
      }
      if dst == src {
        JoinZero(threadClocks[dst]);
        assert threadClocks[dst := threadClocks[dst]] == threadClocks;
        return;
      }
      threadClocks := threadClocks[dst := Join(threadClocks[dst], threadClocks[src])];
    }
  }

  /** Thread `dst` knows what `src` knows. */
  function Told(s: State, src: Tid, dst: Tid): State
    requires s.Valid()
  {
    s.(clocks := s.clocks[dst := Join(s.clocks[dst], s.clocks[src])])
  }

  /** That is a message from the one to the other. */
  lemma ToldByMessage(s: State, src: Tid, dst: Tid, k: Key)
    requires s.Valid() && k !in s.sync
    ensures SyncStep64(HOOKS, SyncStep64(HOOKS, s, src, Send, k), dst, Receive, k) == Told(s, src, dst)
  {
    JoinZero(s.clocks[src]);
    var sent := SyncStep64(HOOKS, s, src, Send, k);
    assert sent.clocks == s.clocks && sent.SyncClock(k) == s.clocks[src];
    assert sent.sync - {k} == s.sync;
  }

  /** Thread `t` has done nothing before event `n`. */
  ghost predicate Unborn(r: Run, t: Tid, n: nat)
    requires n <= |r.events|
  {
    forall m :: 0 <= m < n ==> r.Tid(m) != t
  }

  lemma OthersKeepClock(cfg: Config, s: State, e: Event, t: Tid)
    requires s.Valid() && e.tid != t
    ensures Step(cfg, s, e).0.clocks[t] == s.clocks[t]
  {
  }

  /** Then it has the clock it started with, and nobody has heard of it. */
  lemma {:induction false} UnbornKnowsNothing(r: Run, t: Tid, n: nat)
    requires n <= |r.events| && Unborn(r, t, n)
    ensures r.At(n).clocks[t] == Tick(Zero(), t)
  {
    if n == 0 {
    } else {
      assert r.Tid(n - 1) != t;
      UnbornKnowsNothing(r, t, n - 1);
      OthersKeepClock(r.cfg, r.At(n - 1), r.events[n - 1], t);
    }
  }

  lemma UnbornIsUnknown(r: Run, t: Tid, u: Tid, n: nat)
    requires n <= |r.events| && Unborn(r, t, n) && u != t
    ensures r.At(n).clocks[u][t] == 0
  {
    if r.At(n).clocks[u][t] >= 1 {
      var m := Source(r, t, 1, u, n);
      assert false;
    }
  }

  /** So a new thread that starts by receiving a message from its creator has the clock
      that creation gives it: the creator's, one further in its own component. */
  lemma CreationIsMessage(r: Run, creator: Tid, t: Tid, id: nat, n: nat)
    requires r.cfg == HOOKS && n + 2 <= |r.events| && creator != t && Unborn(r, t, n)
    requires r.events[n] == Sync(creator, Send, Message(id)) && r.events[n + 1] == Sync(t, Receive, Message(id))
    requires Message(id) !in r.At(n).sync
    ensures r.At(n + 2) == r.At(n).(clocks := r.At(n).clocks[t := Tick(r.At(n).clocks[creator], t)])
  {
    var s := r.At(n);
    UnbornKnowsNothing(r, t, n);
    UnbornIsUnknown(r, t, creator, n);
    ToldByMessage(s, creator, t, Message(id));
    assert Join(Tick(Zero(), t), s.clocks[creator]) == Tick(s.clocks[creator], t);
    assert r.At(n + 1) == SyncStep(HOOKS, s, creator, Send, Message(id));
    assert r.At(n + 2) == SyncStep(HOOKS, r.At(n + 1), t, Receive, Message(id));
  }
}
