/** What every step of the futex keeps. */
module FutexInvariant {
  import opened Basics
  import opened WaitQueues
  import opened FutexMemory
  import opened FutexState
  import opened FutexRuns

  ghost predicate Tidy(lists: map<Home, seq<Ref>>) {
    forall h :: h in lists ==> lists[h] != [] && Distinct(lists[h])
  }

  ghost predicate OnIsolate(s: State, r: Ref) {
    r in s.a.info && In(s.a.lists, AtIsolate(s.a.info[r].isolate), r)
  }

  ghost predicate InHand(s: State, r: Ref) {
    r in s.a.info && s.a.info[r].isolate in s.busy && r in s.busy[s.a.info[r].isolate]
  }

  /** An asynchronous waiter is in exactly one place: waiting at its location, on its
      isolate's list, or being settled. */
  ghost predicate AsyncOk(s: State, r: Ref)
    requires r in s.a.info && r in s.fate
  {
    var n := s.a.info[r];
    && n.isolate in s.alive
    && (n.timeoutTask <==> r in s.timers)
    && if AtItsLocation(s.a, r) then
         && !OnIsolate(s, r) && !InHand(s, r)
         && n.waiting && !n.cleanupOnly && s.fate[r] == Queued
         && (n.timeoutTask <==> n.hasDeadline)
       else
         && (OnIsolate(s, r) <==> !InHand(s, r))
         && if n.waiting then
              InHand(s, r) && n.hasDeadline && !n.timeoutTask && !n.cleanupOnly && s.fate[r] == Overdue
            else
              !n.hasDeadline && s.fate[r] == (if n.cleanupOnly then Discarded else Awoken)
  }

  /** A synchronous waiter is queued exactly while its thread is inside a wait, and is
      no longer waiting exactly when a wake-up counted it. */
  ghost predicate SyncOk(s: State, r: Ref)
    requires r in s.a.info && r in s.fate
  {
    var n := s.a.info[r];
    && n.isolate in s.sync && s.sync[n.isolate].node == r
    && var w := s.sync[n.isolate];
    && s.fate[r] in {Queued, Awoken}
    && (AtItsLocation(s.a, r) <==> w.phase != Idle)
    && if w.phase != Idle then
         w.result == None && (n.waiting <==> s.fate[r] == Queued)
       else
         && !n.waiting
         && (w.result == Some(ReturnTimedOut) ==> s.fate[r] == Queued)
         && (w.result == Some(ReturnOk) ==> s.fate[r] == Awoken)
  }

  ghost predicate NodeOk(s: State, r: Ref)
    requires r in s.a.info
  {
    && r != NULL && r in s.owner && r in s.fate && s.owner[r] == s.a.info[r].isolate
    && if s.a.info[r].isAsync then AsyncOk(s, r) else SyncOk(s, r)
  }

  ghost predicate NodesOk(s: State) {
    forall r :: r in s.a.info ==> NodeOk(s, r)
  }

  ghost predicate BusyAt(s: State, k: Isolate)
    requires k in s.busy
  {
    Distinct(s.busy[k]) && forall i :: 0 <= i < |s.busy[k]| ==> Owned(s.a.info, k, s.busy[k][i])
  }

  ghost predicate BusyOk(s: State) {
    forall k :: k in s.busy ==> BusyAt(s, k)
  }

  /** One resolve task is pending exactly when there is something to resolve. */
  ghost predicate TasksOk(s: State) {
    forall k :: k in s.alive ==> s.a.posted[k] == if AtIsolate(k) in s.a.lists then 1 else 0
  }

  ghost predicate TimersOk(s: State) {
    forall r :: r in s.timers ==> r in s.owner && (s.owner[r] in s.alive ==> Owned(s.a.info, s.owner[r], r))
  }

  ghost predicate Settled(s: State, e: Settlement) {
    && e.node in s.fate && e.node !in s.a.info
    && s.fate[e.node] == if e.outcome == Ok then Awoken else Overdue
  }

  ghost predicate Different(log: seq<Settlement>, i: nat, j: nat)
    requires i < |log| && j < |log|
  {
    log[i].node != log[j].node
  }

  ghost predicate LogOk(s: State) {
    && (forall i :: 0 <= i < |s.log| ==> Settled(s, s.log[i]))
    && (forall i, j :: 0 <= i < j < |s.log| ==> Different(s.log, i, j))
  }

  ghost predicate ThreadsOk(s: State) {
    forall k :: k in s.sync ==>
      var r := s.sync[k].node; r in s.a.info && !s.a.info[r].isAsync && s.a.info[r].isolate == k
  }

  ghost predicate KeysOk(s: State) {
    && s.owner.Keys == s.fate.Keys && s.a.info.Keys <= s.owner.Keys
    && s.sync.Keys == s.busy.Keys && s.alive <= s.sync.Keys
  }

  datatype QueuePart = TidyPart | FitPart | NodePart | TaskPart

  datatype RestPart = KeyPart | HandPart | TimerPart | LogPart | ThreadPart

  ghost predicate QueuePartOk(s: State, p: QueuePart) {
    match p
    case TidyPart => Tidy(s.a.lists)
    case FitPart => AllFit(s.a.info, s.a.lists)
    case NodePart => NodesOk(s)
    case TaskPart => TasksOk(s)
  }

  ghost predicate RestPartOk(s: State, p: RestPart) {
    match p
    case KeyPart => KeysOk(s)
    case HandPart => BusyOk(s)
    case TimerPart => TimersOk(s)
    case LogPart => LogOk(s)
    case ThreadPart => ThreadsOk(s)
  }

  /** The lists, the nodes on them and the tasks that will take them off. Part by part,
      so that a proof unfolds only the parts it names. */
  ghost predicate Queues(s: State) {
    forall p :: QueuePartOk(s, p)
  }

  /** What is known of the nodes whatever the lists. */
  ghost predicate Rest(s: State) {
    forall p :: RestPartOk(s, p)
  }

  ghost predicate Inv(s: State) {
    Queues(s) && Rest(s) && !s.fault
  }

  lemma OpenQueues(s: State)
    requires Queues(s)
    ensures Tidy(s.a.lists) && AllFit(s.a.info, s.a.lists) && NodesOk(s) && TasksOk(s)
  {
    assert QueuePartOk(s, TidyPart) && QueuePartOk(s, FitPart) && QueuePartOk(s, NodePart) && QueuePartOk(s, TaskPart);
  }

  lemma OpenRest(s: State)
    requires Rest(s)
    ensures KeysOk(s) && BusyOk(s) && TimersOk(s) && LogOk(s) && ThreadsOk(s)
  {
    assert RestPartOk(s, KeyPart) && RestPartOk(s, HandPart) && RestPartOk(s, TimerPart);
    assert RestPartOk(s, LogPart) && RestPartOk(s, ThreadPart);
  }

  // Lists.

  lemma {:induction false} WithoutMembers(s: seq<Ref>, r: Ref)
    requires Distinct(s)
    ensures Distinct(Without(s, r))
    ensures forall x :: x in Without(s, r) <==> x in s && x != r
  {
    if r in s {
      var i :| 0 <= i < |s| && s[i] == r;
      WithoutAt(s, i);
      SpliceDistinct(s, i);
      assert Without(s, r) == Splice(s, i);
      assert s == s[..i] + [r] + s[i + 1..];
    }
  }

  lemma DropIn(lists: map<Home, seq<Ref>>, h: Home, r: Ref)
    requires Tidy(lists)
    ensures Tidy(Drop(lists, h, r))
    ensures forall g, x :: In(Drop(lists, h, r), g, x) <==> In(lists, g, x) && !(g == h && x == r)
  {
    if h in lists {
      WithoutMembers(lists[h], r);
      assert forall x :: x in lists[h] && x != r ==> x in Without(lists[h], r);
    }
  }

  lemma EnqueueIn(lists: map<Home, seq<Ref>>, h: Home, r: Ref)
    requires Tidy(lists) && !In(lists, h, r)
    ensures Tidy(Enqueue(lists, h, r))
    ensures forall g, x :: In(Enqueue(lists, h, r), g, x) <==> In(lists, g, x) || (g == h && x == r)
  {
    var t := Enqueue(lists, h, r)[h];
    forall i, j | 0 <= i < j < |t|
      ensures Apart(t, i, j)
    {
      assert j < |t| - 1 ==> Apart(lists[h], i, j);
    }
  }

  lemma InFits(info: map<Ref, Info>, lists: map<Home, seq<Ref>>, h: Home, r: Ref)
    requires AllFit(info, lists) && In(lists, h, r)
    ensures r in info && Fits(h, info[r])
  {
    assert FitOn(info, h, lists[h]);
  }

  // What a step leaves alone.

  /** Node `x` sees the same in both states, but perhaps for its backing store. */
  ghost predicate SameView(s: State, t: State, x: Ref) {
    && x in s.a.info && x in t.a.info && t.a.info[x] == s.a.info[x].(expired := t.a.info[x].expired)
    && x in s.fate && x in t.fate && s.fate[x] == t.fate[x]
    && x in s.owner && x in t.owner && s.owner[x] == t.owner[x]
    && (x in s.timers <==> x in t.timers)
    && (AtItsLocation(s.a, x) <==> AtItsLocation(t.a, x))
    && (OnIsolate(s, x) <==> OnIsolate(t, x))
    && (s.a.info[x].isAsync ==>
          (InHand(s, x) <==> InHand(t, x)) && (s.a.info[x].isolate in s.alive ==> s.a.info[x].isolate in t.alive))
    && (!s.a.info[x].isAsync && s.a.info[x].isolate in s.sync ==>
          s.a.info[x].isolate in t.sync && s.sync[s.a.info[x].isolate] == t.sync[s.a.info[x].isolate])
  }

  lemma NodeKept(s: State, t: State, x: Ref)
    requires SameView(s, t, x) && NodeOk(s, x)
    ensures NodeOk(t, x)
  {
  }

  lemma NodesKept(s: State, t: State, r: Ref)
    requires NodesOk(s) && (forall x :: x in t.a.info && x != r ==> SameView(s, t, x))
    requires r in t.a.info ==> NodeOk(t, r)
    ensures NodesOk(t)
  {
    forall x | x in t.a.info
      ensures NodeOk(t, x)
    {
      if x != r {
        NodeKept(s, t, x);
      }
    }
  }

  lemma LogKept(s: State, t: State)
    requires LogOk(s) && t.log == s.log
    requires forall r :: r in s.fate && r !in s.a.info ==> r in t.fate && t.fate[r] == s.fate[r] && r !in t.a.info
    ensures LogOk(t)
  {
    forall i | 0 <= i < |t.log|
      ensures Settled(t, t.log[i])
    {
      assert Settled(s, s.log[i]);
    }
    forall i, j | 0 <= i < j < |t.log|
      ensures Different(t.log, i, j)
    {
      assert Different(s.log, i, j);
    }
  }

  /** No node appears, disappears or changes hands, and no task is added. */
  ghost predicate SameNodes(s: State, t: State) {
    && t.busy.Keys == s.busy.Keys && t.timers <= s.timers
    && t.alive == s.alive && t.log == s.log && t.owner == s.owner
    && t.sync.Keys == s.sync.Keys && (forall k :: k in s.sync ==> t.sync[k].node == s.sync[k].node)
    && t.a.info.Keys == s.a.info.Keys
    && (forall r :: r in s.a.info ==>
          t.a.info[r].isAsync == s.a.info[r].isAsync && t.a.info[r].isolate == s.a.info[r].isolate)
    && t.fate.Keys == s.fate.Keys
    && (forall r :: r in s.fate && r !in s.a.info ==> t.fate[r] == s.fate[r])
  }

  lemma RestWith(s: State, t: State)
    requires Rest(s) && SameNodes(s, t) && BusyOk(t)
    ensures Rest(t)
  {
    OpenRest(s);
    LogKept(s, t);
  }

  lemma RestKept(s: State, t: State)
    requires Rest(s) && SameNodes(s, t) && t.busy == s.busy
    ensures Rest(t)
  {
    assert RestPartOk(s, HandPart);
    BusyWith(s, t);
    RestWith(s, t);
  }

  // Asynchronous steps.

  lemma KeepsWaitAsync(s: State, k: Isolate, node: Ref, l: Location, timeout: bool)
    requires Inv(s) && k in s.alive && node != NULL && node !in s.owner
    ensures Inv(NextWaitAsync(s, k, node, l, timeout))
  {
    OpenRest(s);
    OpenQueues(s);
    NowhereYet(s, node);
    NewNodeQueues(s, k, node, l, timeout);
    NewNodeRest(s, NextWaitAsync(s, k, node, l, timeout), k, node);
  }

  lemma NewNodeQueues(s: State, k: Isolate, node: Ref, l: Location, timeout: bool)
    requires Queues(s) && k in s.alive && node != NULL && node !in s.a.info
    requires forall h :: !In(s.a.lists, h, node)
    requires forall j :: j in s.busy ==> node !in s.busy[j]
    requires node !in s.timers
    ensures Queues(NextWaitAsync(s, k, node, l, timeout))
  {
    var t := NextWaitAsync(s, k, node, l, timeout);
    OpenQueues(s);
    EnqueueIn(s.a.lists, AtLocation(l), node);
    FitsWith(s.a.info, s.a.lists, node, t.a.info[node]);
    EnqueueFits(t.a.info, s.a.lists, AtLocation(l), node);
    NewNodeOk(s, t, k, node);
  }

  lemma NewNodeRest(s: State, t: State, k: Isolate, node: Ref)
    requires Rest(s) && k in s.alive && node !in s.owner
    requires t.owner == s.owner[node := k] && t.fate == s.fate[node := Queued]
    requires node in t.a.info && t.a.info == s.a.info[node := t.a.info[node]] && Owned(t.a.info, k, node)
    requires s.timers <= t.timers <= s.timers + {node}
    requires t.busy == s.busy && t.alive == s.alive && t.sync == s.sync && t.log == s.log
    ensures Rest(t)
  {
    OpenRest(s);
    LogKept(s, t);
    BusyWith(s, t);
  }

  lemma NowhereYet(s: State, r: Ref)
    requires AllFit(s.a.info, s.a.lists) && BusyOk(s) && TimersOk(s) && r !in s.a.info && r !in s.owner
    ensures forall h :: !In(s.a.lists, h, r)
    ensures forall k :: k in s.busy ==> r !in s.busy[k]
    ensures r !in s.timers
  {
    forall h
      ensures !In(s.a.lists, h, r)
    {
      if In(s.a.lists, h, r) {
        InFits(s.a.info, s.a.lists, h, r);
      }
    }
    forall k | k in s.busy
      ensures r !in s.busy[k]
    {
      assert BusyAt(s, k);
    }
  }

  /** `t` is `s` with a new asynchronous waiter, known nowhere before. */
  ghost predicate Joined(s: State, t: State, k: Isolate, node: Ref) {
    && k in s.alive && node != NULL && node !in s.a.info && node !in s.timers
    && (forall h :: !In(s.a.lists, h, node)) && (forall j :: j in s.busy ==> node !in s.busy[j])
    && node in t.a.info && t.a.info == s.a.info[node := t.a.info[node]]
    && t.fate == s.fate[node := Queued] && t.owner == s.owner[node := k]
    && t.busy == s.busy && t.alive == s.alive && t.sync == s.sync
    && var n := t.a.info[node];
    && n == Info(true, k, n.location, true, false, n.timeoutTask, n.timeoutTask, false)
    && t.timers == (if n.timeoutTask then s.timers + {node} else s.timers)
    && forall h, x :: In(t.a.lists, h, x) <==> In(s.a.lists, h, x) || (h == AtLocation(n.location) && x == node)
  }

  lemma JoinedOk(s: State, t: State, k: Isolate, node: Ref)
    requires Joined(s, t, k, node)
    ensures NodeOk(t, node)
  {
  }

  lemma JoinedKept(s: State, t: State, k: Isolate, node: Ref, x: Ref)
    requires Joined(s, t, k, node) && x in s.a.info && NodeOk(s, x)
    ensures x in t.a.info && NodeOk(t, x)
  {
    NodeKept(s, t, x);
  }

  lemma NewNodeOk(s: State, t: State, k: Isolate, node: Ref)
    requires NodesOk(s) && Joined(s, t, k, node)
    ensures NodesOk(t)
  {
    forall x | x in t.a.info
      ensures NodeOk(t, x)
    {
      if x == node {
        JoinedOk(s, t, k, node);
      } else {
        assert NodeOk(s, x);
        JoinedKept(s, t, k, node, x);
      }
    }
  }

  lemma FitsWith(info: map<Ref, Info>, lists: map<Home, seq<Ref>>, r: Ref, n: Info)
    requires AllFit(info, lists) && r !in info
    ensures AllFit(info[r := n], lists)
  {
    forall h | h in lists
      ensures FitOn(info[r := n], h, lists[h])
    {
      assert FitOn(info, h, lists[h]);
    }
  }

  /** Ownership of the nodes in hand is untouched. */
  lemma BusyWith(s: State, t: State)
    requires BusyOk(s) && t.busy == s.busy
    requires forall k, r :: Owned(s.a.info, k, r) ==> Owned(t.a.info, k, r)
    ensures BusyOk(t)
  {
    forall k | k in t.busy
      ensures BusyAt(t, k)
    {
      assert BusyAt(s, k);
    }
  }

  lemma KeepsExpire(s: State, nodes: set<Ref>)
    requires Inv(s)
    ensures Inv(s.(a := s.a.(info := Expired(s.a.info, nodes))))
  {
    var t := s.(a := s.a.(info := Expired(s.a.info, nodes)));
    StoresAside(s, t);
    ExpiredRest(s, nodes);
  }

  lemma ExpiredRest(s: State, nodes: set<Ref>)
    requires Rest(s)
    ensures Rest(s.(a := s.a.(info := Expired(s.a.info, nodes))))
  {
    RestKept(s, s.(a := s.a.(info := Expired(s.a.info, nodes))));
  }

  lemma StoreKept(s: State, t: State, x: Ref)
    requires x in s.a.info && x in t.a.info && NodeOk(s, x) && t == s.(a := s.a.(info := t.a.info))
    requires t.a.info[x] == s.a.info[x].(expired := t.a.info[x].expired)
    ensures NodeOk(t, x)
  {
    NodeKept(s, t, x);
  }

  lemma StoresAside(s: State, t: State)
    requires Queues(s)
    requires t == s.(a := s.a.(info := t.a.info)) && t.a.info.Keys == s.a.info.Keys
    requires forall r :: r in t.a.info ==> t.a.info[r] == s.a.info[r].(expired := t.a.info[r].expired)
    ensures Queues(t)
  {
    OpenQueues(s);
    forall h | h in t.a.lists
      ensures FitOn(t.a.info, h, t.a.lists[h])
    {
      assert FitOn(s.a.info, h, s.a.lists[h]);
    }
    forall x | x in t.a.info
      ensures NodeOk(t, x)
    {
      assert x in s.a.info && NodeOk(s, x);
      StoreKept(s, t, x);
    }
  }

  // A wake-up reaching one node.

  /** From its location's list to its isolate's. */
  function MoveOver(lists: map<Home, seq<Ref>>, n: Info, r: Ref): map<Home, seq<Ref>> {
    Enqueue(Drop(lists, AtLocation(n.location), r), AtIsolate(n.isolate), r)
  }

  lemma MoveOverIn(lists: map<Home, seq<Ref>>, n: Info, r: Ref)
    requires Tidy(lists) && !In(lists, AtIsolate(n.isolate), r)
    ensures Tidy(MoveOver(lists, n, r))
    ensures forall g, x :: In(MoveOver(lists, n, r), g, x) <==>
              if x == r && g == AtLocation(n.location) then false
              else if x == r && g == AtIsolate(n.isolate) then true
              else In(lists, g, x)
    ensures forall k :: AtIsolate(k) in MoveOver(lists, n, r) <==> AtIsolate(k) in lists || k == n.isolate
  {
    DropIn(lists, AtLocation(n.location), r);
    EnqueueIn(Drop(lists, AtLocation(n.location), r), AtIsolate(n.isolate), r);
  }

  lemma MoveOverFits(info: map<Ref, Info>, lists: map<Home, seq<Ref>>, r: Ref, n: Info)
    requires AllFit(info, lists) && r in info && info[r].waiting && info[r].isAsync
    requires n.isAsync && !n.waiting && n.isolate == info[r].isolate && n.location == info[r].location
    ensures AllFit(info[r := n], MoveOver(lists, info[r], r))
  {
    ChangeFits(info, lists, r, n);
    if AtLocation(n.location) in lists {
      DequeueFits(info[r := n], lists, AtLocation(n.location), r);
    }
    EnqueueFits(info[r := n], Drop(lists, AtLocation(n.location), r), AtIsolate(n.isolate), r);
  }

  /** `t` is `s` with waiter `r` handed to its isolate. */
  ghost predicate HandedOver(s: State, t: State, r: Ref, clean: bool) {
    && r in s.a.info
    && t.a.info == s.a.info[r := s.a.info[r].(waiting := false, hasDeadline := false, cleanupOnly := clean)]
    && t.a.lists == MoveOver(s.a.lists, s.a.info[r], r)
    && t.a.posted == (if AtIsolate(s.a.info[r].isolate) in s.a.lists then s.a.posted
         else s.a.posted + multiset{s.a.info[r].isolate})
    && t == s.(a := t.a, fate := s.fate[r := if clean then Discarded else Awoken])
  }

  lemma HandedOverNodes(s: State, t: State, r: Ref, clean: bool)
    requires NodesOk(s) && Tidy(s.a.lists) && HandedOver(s, t, r, clean)
    requires s.a.info[r].isAsync && AtItsLocation(s.a, r)
    ensures NodesOk(t)
  {
    assert NodeOk(s, r);
    MoveOverIn(s.a.lists, s.a.info[r], r);
    NodesKept(s, t, r);
  }

  lemma HandedOverQueues(s: State, t: State, r: Ref, clean: bool)
    requires Queues(s) && HandedOver(s, t, r, clean)
    requires s.a.info[r].isAsync && AtItsLocation(s.a, r)
    ensures Queues(t)
  {
    OpenQueues(s);
    assert NodeOk(s, r);
    HandedOverNodes(s, t, r, clean);
    MoveOverIn(s.a.lists, s.a.info[r], r);
    MoveOverFits(s.a.info, s.a.lists, r, t.a.info[r]);
  }

  lemma ActMoves(a: Abs, r: Ref, action: Action)
    requires r in a.info && a.info[r].isAsync && action != Keep
    ensures var n, b := a.info[r], Act(a, r, action);
            && b.info == a.info[r := n.(waiting := false, hasDeadline := false, cleanupOnly := action == Clean
                 || n.cleanupOnly)]
            && b.lists == MoveOver(a.lists, n, r)
            && b.posted == if AtIsolate(n.isolate) in a.lists then a.posted else a.posted + multiset{n.isolate}
  {
  }

  lemma ReachHandsOver(s: State, r: Ref, action: Action)
    requires AtItsLocation(s.a, r) && s.a.info[r].isAsync && action != Keep
    requires action == Clean ==> !s.a.info[r].timeoutTask
    requires !s.a.info[r].cleanupOnly
    ensures HandedOver(s, Reach(s, r, action), r, action == Clean)
  {
    ActMoves(s.a, r, action);
  }

  lemma KeepsReachAsync(s: State, r: Ref, action: Action)
    requires Inv(s) && AtItsLocation(s.a, r) && s.a.info[r].isAsync
    requires KindOf(s.a.info[r]) == if action == Clean then Stuck else Wakeable
    requires action != Keep
    ensures Inv(Reach(s, r, action))
  {
    var t := Reach(s, r, action);
    OpenNode(s, r);
    ReachHandsOver(s, r, action);
    HandedOverQueues(s, t, r, action == Clean);
    RestKept(s, t);
  }

  lemma OpenNode(s: State, r: Ref)
    requires Queues(s) && r in s.a.info
    ensures NodeOk(s, r)
  {
    OpenQueues(s);
  }

  lemma KeepsReachSync(s: State, r: Ref)
    requires Inv(s) && AtItsLocation(s.a, r) && !s.a.info[r].isAsync && s.a.info[r].waiting
    ensures Inv(Reach(s, r, Action.Wake))
  {
    var t := Reach(s, r, Action.Wake);
    OpenQueues(s);
    assert NodeOk(s, r);
    ChangeFits(s.a.info, s.a.lists, r, t.a.info[r]);
    NodesKept(s, t, r);
    RestKept(s, t);
  }
}
