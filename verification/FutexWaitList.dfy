/** The futex wait list and its operations on linked nodes. Nodes are addresses into an
    explicit memory, so that deleting one is visible: every dereference below is shown
    to hit a live node. */
module FutexWaitLists {
  import opened Basics
  import opened WaitQueues
  import opened FutexMemory
  import opened FutexState
  import opened FutexWakes
  import opened FutexSettling
  import opened FutexTeardown

  /** What an asynchronous wait comes to. */
  datatype ResultKind = NotEqual | TimedOutAtOnce | Async

  class FutexWaitList {
    var links: Links
    var info: map<Ref, Info>
    var posted: multiset<Isolate>
    ghost var view: View

    ghost function Mem(): Memory
      reads this
    {
      Memory(links, view)
    }

    ghost function State(): Abs
      reads this
    {
      Abs(info, view.lists, posted)
    }

    ghost predicate Valid()
      reads this
    {
      Mem().Ok() && AllFit(info, view.lists) && links.prev.Keys == info.Keys
    }

    ghost predicate OnList(h: Home, r: Ref)
      reads this
    {
      h in view.lists && r in view.lists[h]
    }

    constructor ()
      ensures Valid() && State() == Abs(map[], map[], multiset{})
    {
      links := Links(map[], map[], map[], map[]);
      info, posted, view := map[], multiset{}, View(map[], map[], {});
    }

    /** A new node at `node`, an address the allocator has not in use. */
    method NewNode(node: Ref, n: Info)
      requires Valid() && node != NULL && node !in info
      modifies this`links, this`info, this`view
      ensures Valid() && Mem().Unlinked(node)
      ensures State() == old(State()).(info := old(info)[node := n])
    {
      Created(Mem(), info, node, n);
      links := links.(prev := links.prev[node := NULL], next := links.next[node := NULL]);
      info := info[node := n];
      view := view.(key := view.key - {node});
    }

    /** The critical section of an asynchronous wait of isolate `k`, whose timeout, if
        any, is `timeout` nanoseconds. `equal` is whether the value loaded is the one
        waited for; `node` is the address of the node, if one is needed. */
    method WaitAsync(k: Isolate, l: Location, equal: bool, timeout: Option<nat>, node: Ref) returns (kind: ResultKind)
      requires Valid() && node != NULL && node !in info
      modifies this
      ensures Valid()
      ensures kind == if !equal then NotEqual else if timeout == Some(0) then TimedOutAtOnce else Async
      ensures State() == if kind == Async then WaitAsyncAt(old(State()), k, node, l, timeout.Some?) else old(State())
    {
      if !equal {
        return NotEqual;
      } else if timeout == Some(0) {
        return TimedOutAtOnce;
      } else {
        NewNode(node, Info(true, k, l, true, false, timeout.Some?, timeout.Some?, false));
        AddNode(node);
        return Async;
      }
    }

    /** A synchronous waiter that saw the value it waits for queues its isolate's node. */
    method EnterWait(node: Ref, l: Location)
      requires Valid() && node != NULL && node in info && Mem().Unlinked(node)
      modifies this
      ensures Valid() && State() == EnterAt(old(State()), node, l)
    {
      var n := info[node].(location := l, waiting := true);
      UnlinkedAnew(Mem(), info, node, n);
      info := info[node := n];
      AddNode(node);
    }

    /** A synchronous waiter leaves its wait, for whatever reason; its node can be used
        again. */
    method LeaveWait(node: Ref)
      requires Valid() && node in info && OnList(AtLocation(info[node].location), node)
      requires !info[node].isAsync
      modifies this
      ensures Valid() && State() == LeaveAt(old(State()), node)
      ensures Mem().Unlinked(node) && !info[node].waiting
    {
      var n := info[node].(waiting := false);
      ChangeFits(info, view.lists, node, n);
      info := info[node := n];
      RemoveNode(node);
    }

    /** The pointer surgery of `AddNode`. */
    method Link(node: Ref, l: Location)
      requires l in links.locationLists ==> links.locationLists[l].tail != node
      modifies this`links
      ensures AppendLinks(old(Mem()), Mem(), AtLocation(l), node)
    {
      if l !in links.locationLists {
        links := links.(locationLists := links.locationLists[l := HeadAndTail(node, node)]);
      } else {
        var ht := links.locationLists[l];
        links := links.(next := links.next[ht.tail := node]);
        links := links.(prev := links.prev[node := ht.tail]);
        links := links.(locationLists := links.locationLists[l := HeadAndTail(ht.head, node)]);
      }
    }

    method AddNode(node: Ref)
      requires Valid() && node != NULL && node in info && Mem().Unlinked(node)
      modifies this`links, this`view
      ensures Valid()
      ensures view.lists == Enqueue(old(view.lists), AtLocation(info[node].location), node)
    {
      ghost var before := Mem();
      ghost var here := AtLocation(info[node].location);
      TailElsewhere(before, here, node);
      Link(node, info[node].location);
      AppendedNow(before, Mem(), here, node);
      EnqueueFits(info, view.lists, here, node);
      view := Remember(before, here, node);
    }

    /** The pointer surgery of `RemoveNode`. */
    method Unlink(node: Ref, l: Location)
      requires node in links.prev && node in links.next && l in links.locationLists
      requires links.prev[node] != NULL ==> links.prev[node] in links.next && links.prev[node] != node
      requires links.next[node] != NULL ==> links.next[node] in links.prev && links.next[node] != node
      modifies this`links
      ensures UnlinkLinks(old(Mem()), Mem(), AtLocation(l), node)
    {
      var p, n := links.prev[node], links.next[node];
      if p == NULL && n == NULL {
        links := links.(locationLists := links.locationLists - {l});
        assert links.prev == links.prev[node := NULL] && links.next == links.next[node := NULL];
      } else if p != NULL && n != NULL {
        links := links.(next := links.next[p := n]);
        links := links.(prev := links.prev[n := p]);
        links := links.(prev := links.prev[node := NULL], next := links.next[node := NULL]);
        assert links.locationLists == links.locationLists[l := links.locationLists[l]];
      } else {
        var ht := links.locationLists[l];
        if p != NULL {
          links := links.(next := links.next[p := NULL]);
          links := links.(locationLists := links.locationLists[l := HeadAndTail(ht.head, p)]);
          links := links.(prev := links.prev[node := NULL]);
          assert links.next == links.next[node := NULL];
        } else {
          links := links.(locationLists := links.locationLists[l := HeadAndTail(n, ht.tail)]);
          links := links.(prev := links.prev[n := NULL]);
          links := links.(next := links.next[node := NULL]);
          assert links.prev == links.prev[node := NULL];
        }
      }
    }

    method RemoveNode(node: Ref)
      requires Valid() && node in info && OnList(AtLocation(info[node].location), node)
      modifies this`links, this`view
      ensures Valid() && Mem().Unlinked(node)
      ensures view.lists == Drop(old(view.lists), AtLocation(info[node].location), node)
    {
      ghost var before := Mem();
      ghost var here := AtLocation(info[node].location);
      Removable(before, here, node);
      Unlink(node, info[node].location);
      RemovedNode(before, Mem(), here, node);
      DequeueFits(info, view.lists, here, node);
      view := Forget(Mem(), here, node).view;
    }

    /** The second half of `NotifyAsyncWaiter`: onto the isolate's list. */
    method LinkToResolve(node: Ref, k: Isolate)
      requires k in links.isolatePromises ==> links.isolatePromises[k].tail != node
      modifies this`links, this`posted
      ensures AppendLinks(old(Mem()), Mem(), AtIsolate(k), node)
      ensures posted == if k in old(links).isolatePromises then old(posted) else old(posted) + multiset{k}
    {
      if k !in links.isolatePromises {
        links := links.(isolatePromises := links.isolatePromises[k := HeadAndTail(node, node)]);
        posted := posted + multiset{k};
      } else {
        var ht := links.isolatePromises[k];
        links := links.(prev := links.prev[node := ht.tail]);
        links := links.(next := links.next[ht.tail := node]);
        links := links.(isolatePromises := links.isolatePromises[k := HeadAndTail(ht.head, node)]);
      }
    }

    method AddToResolve(node: Ref)
      requires Valid() && node != NULL && node in info && Mem().Unlinked(node)
      requires info[node].isAsync && !info[node].waiting
      modifies this`links, this`view, this`posted
      ensures Valid()
      ensures view.lists == Enqueue(old(view.lists), AtIsolate(info[node].isolate), node)
      ensures posted == if AtIsolate(info[node].isolate) in old(view.lists) then old(posted)
                        else old(posted) + multiset{info[node].isolate}
      ensures node in links.next && links.next[node] == NULL
    {
      ghost var before := Mem();
      ghost var there := AtIsolate(info[node].isolate);
      TailElsewhere(before, there, node);
      LinkToResolve(node, info[node].isolate);
      AppendedNow(before, Mem(), there, node);
      EnqueueFits(info, view.lists, there, node);
      view := Remember(before, there, node);
      LastHasNoNext(Mem(), there, node);
    }

    method NotifyAsyncWaiter(node: Ref)
      requires Valid() && node != NULL && node in info && OnList(AtLocation(info[node].location), node)
      requires info[node].isAsync && !info[node].waiting
      modifies this
      ensures Valid() && State() == Notify(old(State()), node)
      ensures node in links.next && links.next[node] == NULL
    {
      ghost var a := State();
      var n := info[node].(hasDeadline := false);
      ChangeFits(info, view.lists, node, n);
      info := info[node := n];
      RemoveNode(node);
      ghost var left := view.lists;
      AddToResolve(node);
      NotifyIs(a, node, left, State());
    }

    /** Wakes the matching waiter `node` and returns its successor, read before the node
        is taken out of the list. */
    method WakeNode(node: Ref) returns (nextNode: Ref)
      requires Valid() && node != NULL && node in info && OnList(AtLocation(info[node].location), node)
      requires KindOf(info[node]) == Wakeable
      modifies this
      ensures Valid() && State() == Act(old(State()), node, Action.Wake)
      ensures nextNode == old(links).next[node]
    {
      ChangeFits(info, view.lists, node, info[node].(waiting := false));
      NodeLinked(node);
      nextNode := links.next[node];
      info := info[node := info[node].(waiting := false)];
      if info[node].isAsync {
        NotifyAsyncWaiter(node);
      }
    }

    /** Hands a waiter that can never be woken to its isolate for cleanup, then reads its
        successor: the node is last on its isolate's list by now. */
    method CleanNode(node: Ref) returns (nextNode: Ref)
      requires Valid() && node != NULL && node in info && OnList(AtLocation(info[node].location), node)
      requires KindOf(info[node]) == Stuck
      modifies this
      ensures Valid() && State() == Act(old(State()), node, Clean)
      ensures nextNode == NULL
    {
      ChangeFits(info, view.lists, node, info[node].(waiting := false, cleanupOnly := true));
      info := info[node := info[node].(waiting := false, cleanupOnly := true)];
      NotifyAsyncWaiter(node);
      nextNode := links.next[node];
    }

    /** One turn of the traversal: the successor, the budget left and the new count. */
    method Visit(node: Ref, budget: Budget, count: nat) returns (nextNode: Ref, left: Budget, woken: nat)
      requires Valid() && node != NULL && node in info && OnList(AtLocation(info[node].location), node)
      requires budget > 0
      modifies this
      ensures Valid()
      ensures node in old(links).next
      ensures Visited(old(State()), node, old(links).next[node], budget, count, State(), nextNode, left, woken)
    {
      NodeLinked(node);
      left, woken := budget, count;
      if !info[node].waiting {
        nextNode := links.next[node];
      } else if !info[node].isAsync || !info[node].expired {
        nextNode := WakeNode(node);
        if left != WAKE_ALL {
          left := left - 1;
        }
        woken := woken + 1;
      } else if !info[node].hasDeadline {
        nextNode := CleanNode(node);
      } else {
        nextNode := links.next[node];
      }
    }

    /** One turn of the loop in `Wake`, against the stage `g` the wake-up has reached. */
    method Turned(ghost a: Abs, ghost l: Location, ghost q: seq<Ref>, ghost p: seq<Action>, ghost g: Stage,
                  node: Ref, budget: Budget, count: nat)
      returns (nextNode: Ref, left: Budget, woken: nat, ghost after: Stage)
      requires Reached(a, l, q, p, g, node, budget, count) && node != NULL && budget > 0
      modifies this
      ensures Reached(a, l, q, p, after, nextNode, left, woken) && g.j < after.j <= |q|
    {
      Turn(a, l, q, p, g);
      after := Advance(q, p, g);
      ghost var next := links.next[node];
      nextNode, left, woken := Visit(node, budget, count);
      VisitedOnce(g.now, node, next, budget, count, State(), nextNode, left, woken,
                  after.now, NodeAt(q, after), after.budget, after.woken);
    }

    /** The loop in `Wake` stands at `node`, and the wake-up is at stage `g`. */
    ghost predicate Reached(a: Abs, l: Location, q: seq<Ref>, p: seq<Action>, g: Stage, node: Ref, budget: Budget,
                            count: nat)
      reads this
    {
      && Valid() && State() == g.now && budget == g.budget && count == g.woken && node == NodeAt(q, g)
      && Progress(a, l, q, p, g)
    }

    /** Wakes at most `budget` waiters at `l`. The traversal follows the stored `next`
        pointers and stays on the location's list although waking relinks the node it
        stands on. */
    method Wake(l: Location, budget: Budget) returns (woken: nat)
      requires Valid()
      modifies this
      ensures Known(old(State()), QueueAt(old(State()), l))
      ensures (State(), woken) == WakeAt(old(State()), l, budget)
      ensures WakesExactly(old(State()), l, budget, State(), woken)
      ensures NoneExpired(old(info), QueueAt(old(State()), l)) ==> WakesOldest(old(State()), l, budget, State(), woken)
      ensures Valid()
    {
      Begin(l, budget);
      WakeMeans(l, budget);
      ghost var a := State();
      ghost var q := QueueAt(a, l);
      ghost var p := Plan(Kinds(a, q), budget);
      ghost var g := Stage(a, 0, [], budget, 0);
      woken := 0;
      if l in links.locationLists {
        var node := links.locationLists[l].head;
        var b := budget;
        while node != NULL && b > 0
          invariant Reached(a, l, q, p, g, node, b, woken)
          decreases |q| - g.j
        {
          node, b, woken, g := Turned(a, l, q, p, g, node, b, woken);
        }
        End(a, l, budget, q, p, g);
      }
    }

    // Deleting asynchronous waiters.

    /** Deletes `node` and returns the next node of its list. */
    method DeleteAsyncWaiterNode(node: Ref) returns (nextNode: Ref)
      requires node in links.prev && node in links.next && node in info
      requires links.prev[node] != NULL ==> links.prev[node] in links.next && links.prev[node] != node
      requires links.next[node] != NULL ==> links.next[node] in links.prev && links.next[node] != node
      modifies this`links, this`info, this`view
      ensures DeleteLinks(old(Mem()), Mem(), node) && info == old(info) - {node}
      ensures nextNode == old(links).next[node]
    {
      var p := links.prev[node];
      nextNode := links.next[node];
      if p != NULL {
        links := links.(next := links.next[p := nextNode]);
      }
      if nextNode != NULL {
        links := links.(prev := links.prev[nextNode := p]);
      }
      links := links.(prev := links.prev - {node}, next := links.next - {node});
      info := info - {node};
      view := view.(key := view.key - {node});
    }

    /** One turn of the loop below: deletes `node` or keeps it. */
    method SweepTurn(k: Isolate, node: Ref, head: Ref, tail: Ref,
                     ghost was: map<Ref, Info>, ghost h: Home, ghost q: seq<Ref>, ghost j: nat)
      returns (nextNode: Ref, newHead: Ref, newTail: Ref)
      requires SweepAt(Mem(), info, was, h, k, q, j, node, head, tail) && node != NULL
      modifies this`links, this`info, this`view
      ensures SweepAt(Mem(), info, was, h, k, q, j + 1, nextNode, newHead, newTail)
      ensures view.lists == old(view).lists
    {
      SweepHere(Mem(), info, was, h, k, q, j);
      ghost var before, had := Mem(), info;
      newHead, newTail := head, tail;
      if info[node].isAsync && info[node].isolate == k {
        nextNode := DeleteAsyncWaiterNode(node);
        SweepDeletes(before, Mem(), had, was, h, k, q, j, node, head, tail);
      } else {
        SweepKeeps(before, had, was, h, k, q, j, node, head, tail);
        if newHead == NULL {
          newHead := node;
        }
        newTail := node;
        nextNode := links.next[node];
      }
    }

    method StoreEnds(l: Location, head: Ref, tail: Ref, ghost t: seq<Ref>)
      requires EndsFor(t) == if head == NULL then NoList else Ends(HeadAndTail(head, tail))
      modifies this`links, this`view
      ensures Mem() == Mend(old(Mem()), AtLocation(l), t)
    {
      if head == NULL {
        links := links.(locationLists := links.locationLists - {l});
      } else {
        links := links.(locationLists := links.locationLists[l := HeadAndTail(head, tail)]);
      }
      view := view.(lists := SetQueue(view.lists, AtLocation(l), t));
    }

    /** Deletes the nodes of isolate `k` from the list of `l`, and the list with its last
        node. */
    method DeleteNodesForIsolate(k: Isolate, l: Location)
      requires Valid() && l in links.locationLists
      modifies this`links, this`info, this`view
      ensures AtLocation(l) in old(view).lists
      ensures Valid() && State() == SweepOne(old(State()), k, AtLocation(l))
    {
      ghost var h := AtLocation(l);
      QueueKnown(l);
      SweepStart(Mem(), info, h, k);
      ghost var q, was, j := view.lists[h], info, 0;
      var node, head, tail := links.locationLists[l].head, NULL, NULL;
      while node != NULL
        invariant SweepAt(Mem(), info, was, h, k, q, j, node, head, tail)
        invariant view.lists == old(view).lists
        decreases |q| - j
      {
        node, head, tail := SweepTurn(k, node, head, tail, was, h, q, j);
        j := j + 1;
      }
      SweepDone(Mem(), info, was, h, k, q, j, head, tail);
      SweepStored(Mem(), info, was, h, k, q, posted);
      StoreEnds(l, head, tail, Kept(was, k, q));
    }

    /** One turn of the loops over an isolate's own list. */
    method DrainTurn(ghost k: Isolate, node: Ref, ghost was: map<Ref, Info>, ghost q: seq<Ref>, ghost j: nat)
      returns (nextNode: Ref)
      requires SweepAt(Mem(), info, was, AtIsolate(k), k, q, j, node, NULL, NULL) && node != NULL && Owned(was, k, node)
      modifies this`links, this`info, this`view
      ensures SweepAt(Mem(), info, was, AtIsolate(k), k, q, j + 1, nextNode, NULL, NULL)
      ensures view.lists == old(view).lists && links.isolatePromises == old(links).isolatePromises
    {
      ghost var before, had := Mem(), info;
      SweepHere(before, had, was, AtIsolate(k), k, q, j);
      nextNode := DeleteAsyncWaiterNode(node);
      SweepDeletes(before, Mem(), had, was, AtIsolate(k), k, q, j, node, NULL, NULL);
    }

    /** The isolate's resolve task: takes the whole list of isolate `k`, settles its
        promises in order and deletes its nodes. Some of the promises may have been
        collected. */
    method ResolveAsyncWaiterPromises(k: Isolate, collected: set<Ref>) returns (resolved: seq<Settlement>)
      requires Valid() && k in links.isolatePromises && AtIsolate(k) in view.lists
      modifies this
      ensures Valid()
      ensures State() == SweepOne(old(State()).(posted := old(posted) - multiset{k}), k, AtIsolate(k))
      ensures forall i :: 0 <= i < |old(view).lists[AtIsolate(k)]| ==> old(view).lists[AtIsolate(k)][i] in old(info)
      ensures resolved == AllSettlements(old(info), old(view).lists[AtIsolate(k)], collected)
      ensures SettlesAs(old(info), old(view).lists[AtIsolate(k)], collected, resolved)
    {
      ghost var q, was := view.lists[AtIsolate(k)], info;
      var node := TakeResolveList(k);
      resolved := SettleAll(k, node, collected, was, q);
      AllSettled(was, q, collected, resolved);
      ForgetResolveList(k, was, q);
    }

    /** The list, erased before its nodes were deleted, is gone from the view too. */
    ghost method ForgetResolveList(k: Isolate, was: map<Ref, Info>, q: seq<Ref>)
      requires Mendable(Mem(), info, AtIsolate(k), []) && info == was - OwnedIn(was, k, q) && Kept(was, k, q) == []
      requires k !in links.isolatePromises && AtIsolate(k) in view.lists && view.lists[AtIsolate(k)] == q
      modifies this`view
      ensures Valid() && State() == SweepOne(Abs(was, old(view).lists, posted), k, AtIsolate(k))
    {
      SweepStored(Mem(), info, was, AtIsolate(k), k, q, posted);
      ErasedBefore(Mem(), k);
      view := view.(lists := view.lists - {AtIsolate(k)});
    }

    /** The critical section of the resolve task. */
    method TakeResolveList(k: Isolate) returns (node: Ref)
      requires Valid() && k in links.isolatePromises && AtIsolate(k) in view.lists
      modifies this`links, this`posted
      ensures posted == old(posted) - multiset{k} && k !in links.isolatePromises
      ensures SweepAt(Mem(), info, info, AtIsolate(k), k, view.lists[AtIsolate(k)], 0, node, NULL, NULL)
      ensures forall i :: 0 <= i < |view.lists[AtIsolate(k)]| ==> Owned(info, k, view.lists[AtIsolate(k)][i])
    {
      ghost var m := Mem();
      posted := posted - multiset{k};
      node := links.isolatePromises[k].head;
      links := links.(isolatePromises := links.isolatePromises - {k});
      DrainStart(m, Mem(), info, k);
    }

    /** The loop over the nodes taken, which are on no list any more. */
    method SettleAll(k: Isolate, head: Ref, collected: set<Ref>, ghost was: map<Ref, Info>, ghost q: seq<Ref>)
      returns (resolved: seq<Settlement>)
      requires SweepAt(Mem(), info, was, AtIsolate(k), k, q, 0, head, NULL, NULL)
      requires forall i :: 0 <= i < |q| ==> Owned(was, k, q[i])
      requires k !in links.isolatePromises
      modifies this`links, this`info, this`view
      ensures Mendable(Mem(), info, AtIsolate(k), []) && info == was - OwnedIn(was, k, q) && Kept(was, k, q) == []
      ensures view.lists == old(view).lists && k !in links.isolatePromises
      ensures resolved == AllSettlements(was, q, collected)
    {
      ghost var j := 0;
      var node := head;
      resolved := [];
      while node != NULL
        invariant SweepAt(Mem(), info, was, AtIsolate(k), k, q, j, node, NULL, NULL)
        invariant view.lists == old(view).lists && k !in links.isolatePromises
        invariant resolved == AllSettlements(was, q[..j], collected)
        decreases |q| - j
      {
        node, resolved := SettleTurn(k, node, collected, resolved, was, q, j);
        j := j + 1;
      }
      DrainDone(Mem(), info, was, k, q, j);
      assert q[..|q|] == q;
    }

    method SettleTurn(k: Isolate, node: Ref, collected: set<Ref>, resolved: seq<Settlement>,
                      ghost was: map<Ref, Info>, ghost q: seq<Ref>, ghost j: nat)
      returns (nextNode: Ref, settled: seq<Settlement>)
      requires SweepAt(Mem(), info, was, AtIsolate(k), k, q, j, node, NULL, NULL) && node != NULL
      requires forall i :: 0 <= i < |q| ==> Owned(was, k, q[i])
      requires resolved == AllSettlements(was, q[..j], collected)
      modifies this`links, this`info, this`view
      ensures SweepAt(Mem(), info, was, AtIsolate(k), k, q, j + 1, nextNode, NULL, NULL)
      ensures view.lists == old(view).lists && links.isolatePromises == old(links).isolatePromises
      ensures settled == AllSettlements(was, q[..j + 1], collected)
    {
      SweepHere(Mem(), info, was, AtIsolate(k), k, q, j);
      assert q[..j + 1][..j] == q[..j];
      settled := resolved + Settlements(info[node], node, node in collected);
      nextNode := DrainTurn(k, node, was, q, j);
    }

    lemma ListKnown(k: Isolate)
      requires Valid()
      ensures AtIsolate(k) in view.lists <==> k in links.isolatePromises
    {
      if AtIsolate(k) in view.lists {
        assert Mem().ListOk(AtIsolate(k), view.lists[AtIsolate(k)]);
      } else {
        assert Mem().EndsOf(AtIsolate(k)) == NoList;
      }
    }

    /** The loop over an isolate's own list in its teardown. */
    method DeleteAll(k: Isolate, head: Ref, ghost was: map<Ref, Info>, ghost q: seq<Ref>)
      requires SweepAt(Mem(), info, was, AtIsolate(k), k, q, 0, head, NULL, NULL)
      requires forall i :: 0 <= i < |q| ==> Owned(was, k, q[i])
      modifies this`links, this`info, this`view
      ensures Mendable(Mem(), info, AtIsolate(k), []) && info == was - OwnedIn(was, k, q) && Kept(was, k, q) == []
      ensures view.lists == old(view).lists
    {
      ghost var j := 0;
      var node := head;
      while node != NULL
        invariant SweepAt(Mem(), info, was, AtIsolate(k), k, q, j, node, NULL, NULL)
        invariant view.lists == old(view).lists
        decreases |q| - j
      {
        node := DrainTurn(k, node, was, q, j);
        j := j + 1;
      }
      DrainDone(Mem(), info, was, k, q, j);
    }

    /** Deletes what is left of isolate `k` in its own list, and the list. */
    method DeleteResolveList(k: Isolate)
      requires Valid() && k in links.isolatePromises
      modifies this`links, this`info, this`view
      ensures AtIsolate(k) in old(view).lists
      ensures Valid() && State() == SweepOne(old(State()), k, AtIsolate(k))
    {
      ListKnown(k);
      ghost var q, was := view.lists[AtIsolate(k)], info;
      DrainStart(Mem(), Mem(), info, k);
      DeleteAll(k, links.isolatePromises[k].head, was, q);
      SweepStored(Mem(), info, was, AtIsolate(k), k, q, posted);
      EraseResolveList(k);
    }

    method EraseResolveList(k: Isolate)
      modifies this`links, this`view
      ensures Mem() == Mend(old(Mem()), AtIsolate(k), [])
    {
      links := links.(isolatePromises := links.isolatePromises - {k});
      view := view.(lists := view.lists - {AtIsolate(k)});
    }

    /** Isolate `k` is going away: deletes its nodes from every list, in any order of
        the locations. */
    method IsolateDeinit(k: Isolate)
      requires Valid()
      modifies this
      ensures Valid() && State() == DeinitAt(old(State()), k)
    {
      ghost var a := State();
      OkSeparate(Mem());
      ghost var done := SweepLocations(k);
      SweepsDone(a, k, done);
      ListKnown(k);
      if k in links.isolatePromises {
        SweepNext(a, k, done, AtIsolate(k));
        DeleteResolveList(k);
      }
    }

    method SweepLocations(k: Isolate) returns (ghost done: set<Home>)
      requires Valid()
      modifies this
      ensures Valid() && State() == Swept(old(State()), k, done) && SweepsLeft(old(State()), done, {})
    {
      ghost var a := State();
      done := {};
      var todo := links.locationLists.Keys;
      SweptNone(a, k);
      AllLocations(todo);
      OkSeparate(Mem());
      while todo != {}
        invariant Valid() && State() == Swept(a, k, done) && SweepsLeft(a, done, todo)
        decreases todo
      {
        var l :| l in todo;
        done := SweepLocation(k, l, a, done, todo);
        todo := todo - {l};
      }
    }

    method SweepLocation(k: Isolate, l: Location, ghost a: Abs, ghost done: set<Home>, ghost todo: set<Location>)
      returns (ghost after: set<Home>)
      requires Valid() && State() == Swept(a, k, done) && SweepsLeft(a, done, todo) && l in todo
      requires AllFit(a.info, a.lists) && Separate(a.lists)
      modifies this
      ensures Valid() && State() == Swept(a, k, after) && SweepsLeft(a, after, todo - {l})
    {
      QueueKnown(l);
      SweepNext(a, k, done, AtLocation(l));
      DeleteNodesForIsolate(k, l);
      after := done + {AtLocation(l)};
    }

    lemma AllLocations(todo: set<Location>)
      requires Valid() && todo == links.locationLists.Keys
      ensures SweepsLeft(State(), {}, todo)
    {
      forall h | h in view.lists && h.AtLocation?
        ensures h.location in todo
      {
        QueueKnown(h.location);
      }
      forall l | l in todo
        ensures AtLocation(l) in view.lists
      {
        QueueKnown(l);
      }
    }

    /** A node's timeout task. A node no longer waiting is left to the resolve task. */
    method HandleAsyncWaiterTimeout(node: Ref, collected: bool) returns (resolved: seq<Settlement>)
      requires Valid() && node != NULL && node in info && info[node].isAsync
      requires info[node].waiting ==> OnList(AtLocation(info[node].location), node)
      modifies this
      ensures Valid() && State() == TimeoutAt(old(State()), node)
      ensures var was := old(info)[node];
              resolved == if was.waiting && !was.cleanupOnly && !collected
                          then [Settlement(node, if was.hasDeadline then TimedOut else Ok)] else []
      ensures info == if old(info)[node].waiting then old(info) - {node}
                      else old(info)[node := old(info)[node].(timeoutTask := false)]
    {
      resolved := [];
      ChangeFits(info, view.lists, node, info[node].(timeoutTask := false));
      info := info[node := info[node].(timeoutTask := false)];
      if info[node].waiting {
        RemoveNode(node);
        resolved := Settlements(info[node], node, collected);
        DeleteNode(node);
      }
    }

    /** Deletes a node that is on no list. */
    method DeleteNode(node: Ref)
      requires Valid() && node in info && Mem().Unlinked(node)
      modifies this`links, this`info
      ensures Valid() && State() == Delete(old(State()), node)
    {
      ghost var before := Mem();
      links := links.(prev := links.prev - {node}, next := links.next - {node});
      GoneOk(before, Mem(), node);
      UnlinkedFits(before, info, node);
      info := info - {node};
    }

    /** What the wake-up is going to do. */
    lemma WakeMeans(l: Location, budget: Budget)
      requires Valid()
      ensures Known(State(), QueueAt(State(), l))
      ensures var (b, woken) := WakeAt(State(), l, budget);
              && WakesExactly(State(), l, budget, b, woken)
              && (NoneExpired(info, QueueAt(State(), l)) ==> WakesOldest(State(), l, budget, b, woken))
    {
      var q := QueueAt(State(), l);
      QueueKnown(l);
      assert AtLocation(l) in view.lists ==> Mem().ListOk(AtLocation(l), q);
      WakeIsExact(State(), l, budget);
      if NoneExpired(info, q) {
        WakeOldest(State(), l, budget);
      }
    }

    lemma Begin(l: Location, budget: Budget)
      requires Valid()
      ensures var a := State(); var q := QueueAt(a, l);
              && Known(a, q)
              && (l !in links.locationLists ==> (a, 0) == WakeAt(a, l, budget))
              && (l in links.locationLists ==>
                   && links.locationLists[l].head == NodeAt(q, Stage(a, 0, [], budget, 0))
                   && Progress(a, l, q, Plan(Kinds(a, q), budget), Stage(a, 0, [], budget, 0)))
    {
      var a := State();
      var q := QueueAt(a, l);
      QueueKnown(l);
      ProgressStart(a, l, budget);
      if l in links.locationLists {
        HeadIsFirst(l);
      } else {
        ProgressDone(a, l, budget, q, Plan(Kinds(a, q), budget), Stage(a, 0, [], budget, 0));
      }
    }

    lemma End(a: Abs, l: Location, budget: Budget, q: seq<Ref>, p: seq<Action>, g: Stage)
      requires Valid() && State() == g.now && Known(a, q) && q == QueueAt(a, l) && p == Plan(Kinds(a, q), budget)
      requires Progress(a, l, q, p, g) && (NodeAt(q, g) == NULL || g.budget == 0)
      ensures (g.now, g.woken) == WakeAt(a, l, budget)
    {
      if g.j < |q| {
        assert ProgressPartOk(a, l, q, p, g, QueuePart);
        Standing(l, q, g);
      }
      ProgressDone(a, l, budget, q, p, g);
    }

    lemma NodeLinked(node: Ref)
      requires Valid() && node in info
      ensures node in links.next
    {
      assert node in links.prev.Keys;
    }

    lemma QueueKnown(l: Location)
      requires Valid()
      ensures Known(State(), QueueAt(State(), l))
      ensures AtLocation(l) in view.lists <==> l in links.locationLists
    {
      if AtLocation(l) in view.lists {
        assert FitOn(info, AtLocation(l), view.lists[AtLocation(l)]);
        assert Mem().ListOk(AtLocation(l), view.lists[AtLocation(l)]);
      } else {
        assert Mem().EndsOf(AtLocation(l)) == NoList;
      }
    }

    lemma HeadIsFirst(l: Location)
      requires Valid() && AtLocation(l) in view.lists
      ensures l in links.locationLists && view.lists[AtLocation(l)] != []
      ensures links.locationLists[l].head == view.lists[AtLocation(l)][0]
    {
      assert Mem().ListOk(AtLocation(l), view.lists[AtLocation(l)]);
    }

    /** What is known of the node the traversal stands on. */
    lemma Standing(l: Location, q: seq<Ref>, g: Stage)
      requires Valid() && State() == g.now && g.j < |q| && QueueAt(g.now, l) == g.pre + q[g.j..]
      ensures OnQueue(l, q, g) && OnList(AtLocation(l), q[g.j])
      ensures q[g.j] != NULL
      ensures q[g.j] in links.next && links.next[q[g.j]] == if g.j + 1 < |q| then q[g.j + 1] else NULL
    {
      var here := AtLocation(l);
      var s := view.lists[here];
      assert Mem().ListOk(here, s) && FitOn(info, here, s);
      assert s[|g.pre|] == q[g.j];
      LinkedAt(Mem(), s, |g.pre|);
      if g.j + 1 < |q| {
        assert s[|g.pre| + 1] == q[g.j + 1];
      }
    }

    /** One turn of the traversal, as the plan has it. */
    lemma Turn(a: Abs, l: Location, q: seq<Ref>, p: seq<Action>, g: Stage)
      requires Valid() && State() == g.now && Progress(a, l, q, p, g) && g.j < |q| && g.budget > 0
      ensures OnQueue(l, q, g) && OnList(AtLocation(l), q[g.j]) && q[g.j] != NULL
      ensures q[g.j] in links.next && links.next[q[g.j]] == if g.j + 1 < |q| then q[g.j + 1] else NULL
      ensures Progress(a, l, q, p, Advance(q, p, g)) && g.j < Advance(q, p, g).j <= |q|
      ensures Advances(q, g, Advance(q, p, g))
    {
      assert ProgressPartOk(a, l, q, p, g, QueuePart);
      Standing(l, q, g);
      ProgressAdvances(a, l, q, p, g);
      ProgressNext(a, l, q, p, g);
    }
  }
}
