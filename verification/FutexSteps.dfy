/** Every step keeps the invariant. */
module FutexSteps {
  import opened Basics
  import opened WaitQueues
  import opened FutexMemory
  import opened FutexState
  import opened FutexRuns
  import opened FutexInvariant

  // Wake-ups.

  lemma ActOthers(a: Abs, h: Home, r: Ref, action: Action, x: Ref)
    requires Tidy(a.lists) && r in a.info && !In(a.lists, AtIsolate(a.info[r].isolate), r)
    requires action == Clean ==> a.info[r].isAsync
    requires x != r && In(a.lists, h, x)
    ensures In(Act(a, r, action).lists, h, x)
  {
    if action != Keep && a.info[r].isAsync {
      ActMoves(a, r, action);
      MoveOverIn(a.lists, a.info[r], r);
    }
  }

  lemma ReachOthers(s: State, l: Location, r: Ref, action: Action, x: Ref)
    requires Queues(s) && AtItsLocation(s.a, r) && x != r
    requires action == Clean ==> s.a.info[r].isAsync
    requires x in s.a.info && In(s.a.lists, AtLocation(l), x)
    ensures Ahead(s, Reach(s, r, action), l, x)
  {
    OpenQueues(s);
    assert NodeOk(s, r);
    if OnIsolate(s, r) {
      InFits(s.a.info, s.a.lists, AtIsolate(s.a.info[r].isolate), r);
    }
    ActOthers(s.a, AtLocation(l), r, action, x);
  }

  ghost predicate Ahead(s: State, t: State, l: Location, r: Ref) {
    SameInfo(s.a, t.a, r) && In(t.a.lists, AtLocation(l), r)
  }

  /** The wake-up has acted on the first `j` nodes of `q` and all is well. */
  ghost predicate WellUpto(s: State, l: Location, q: seq<Ref>, p: seq<Action>, j: nat)
    requires |q| == |p| && j <= |q| && Known(s.a, q)
  {
    var t := ReachUpto(s, q, p, j);
    && Inv(t)
    && t.a == ActUpto(s.a, q, p, j)
    && forall i {:trigger Ahead(s, t, l, q[i])} :: j <= i < |q| ==> Ahead(s, t, l, q[i])
  }

  ghost predicate Follows(a: Abs, q: seq<Ref>, p: seq<Action>, i: nat)
    requires i < |q| == |p| && Known(a, q)
  {
    && (p[i] == Action.Wake ==> KindOf(a.info[q[i]]) == Wakeable)
    && (p[i] == Clean ==> KindOf(a.info[q[i]]) == Stuck)
  }

  lemma {:induction false} KeepsReachUpto(s: State, l: Location, q: seq<Ref>, p: seq<Action>, j: nat)
    requires Inv(s) && q == QueueAt(s.a, l) && Known(s.a, q) && |p| == |q| && j <= |q|
    requires forall i :: 0 <= i < |q| ==> Follows(s.a, q, p, i)
    ensures WellUpto(s, l, q, p, j)
    decreases j
  {
    QueueFacts(s, l);
    if j == 0 {
    } else {
      KeepsReachUpto(s, l, q, p, j - 1);
      ReachNext(s, l, q, p, j - 1);
    }
  }

  lemma ReachNext(s: State, l: Location, q: seq<Ref>, p: seq<Action>, j: nat)
    requires j < |q| == |p| && Known(s.a, q) && Distinct(q) && WellUpto(s, l, q, p, j)
    requires s.a.info[q[j]].location == l && Follows(s.a, q, p, j)
    ensures WellUpto(s, l, q, p, j + 1)
  {
    var t := ReachUpto(s, q, p, j);
    var r := q[j];
    assert Ahead(s, t, l, r);
    KeepsReach(t, r, p[j]);
    var next := Reach(t, r, p[j]);
    forall i | j + 1 <= i < |q|
      ensures Ahead(s, next, l, q[i])
    {
      assert Ahead(s, t, l, q[i]) && Apart(q, j, i);
      ReachOthers(t, l, r, p[j], q[i]);
      assert Ahead(t, next, l, q[i]);
    }
  }

  lemma QueueFacts(s: State, l: Location)
    requires Queues(s)
    ensures var q := QueueAt(s.a, l);
            && Known(s.a, q) && Distinct(q)
            && (forall i :: 0 <= i < |q| ==> s.a.info[q[i]].location == l)
            && (forall i {:trigger Ahead(s, s, l, q[i])} :: 0 <= i < |q| ==> Ahead(s, s, l, q[i]))
  {
    OpenQueues(s);
    var q := QueueAt(s.a, l);
    if AtLocation(l) in s.a.lists {
      assert FitOn(s.a.info, AtLocation(l), q);
    }
  }

  lemma KeepsReach(s: State, r: Ref, action: Action)
    requires Inv(s) && AtItsLocation(s.a, r)
    requires action == Action.Wake ==> KindOf(s.a.info[r]) == Wakeable
    requires action == Clean ==> KindOf(s.a.info[r]) == Stuck
    ensures Inv(Reach(s, r, action))
    ensures Reach(s, r, action).a == Act(s.a, r, action)
  {
    if action != Keep {
      if s.a.info[r].isAsync {
        KeepsReachAsync(s, r, action);
      } else {
        KeepsReachSync(s, r);
      }
    }
  }

  lemma KeepsWakeUp(s: State, l: Location, budget: Budget)
    requires Inv(s)
    ensures Inv(NextWake(s, l, budget))
    ensures Known(s.a, QueueAt(s.a, l)) && NextWake(s, l, budget).a == WakeAt(s.a, l, budget).0
  {
    QueueFacts(s, l);
    var q := QueueAt(s.a, l);
    var p := Plan(Kinds(s.a, q), budget);
    forall i | 0 <= i < |q|
      ensures Follows(s.a, q, p, i)
    {
      PlanExact(Kinds(s.a, q), budget, i);
    }
    KeepsReachUpto(s, l, q, p, |q|);
    assert WellUpto(s, l, q, p, |q|);
  }

  // Timeouts.

  lemma TimedNode(s: State, r: Ref)
    requires Inv(s) && r in s.timers && r in s.owner && s.owner[r] in s.alive
    ensures r in s.a.info && NodeOk(s, r) && s.a.info[r].isAsync && s.a.info[r].timeoutTask
    ensures s.a.info[r].waiting <==> AtItsLocation(s.a, r)
    ensures s.a.info[r].waiting ==> s.a.info[r].hasDeadline
  {
    OpenRest(s);
    OpenNode(s, r);
  }

  /** The timeout task has started: its id is no longer valid. */
  function Started(s: State, r: Ref): State
    requires r in s.a.info
  {
    s.(timers := s.timers - {r}, a := s.a.(info := s.a.info[r := s.a.info[r].(timeoutTask := false)]))
  }

  lemma StartedKept(s: State, r: Ref, x: Ref)
    requires r in s.a.info && x in s.a.info && x != r && NodeOk(s, x)
    ensures NodeOk(Started(s, r), x)
  {
    NodeKept(s, Started(s, r), x);
  }

  lemma StartedLate(s: State, r: Ref)
    requires Queues(s) && r in s.a.info && s.a.info[r].isAsync && !s.a.info[r].waiting && r in s.timers
    ensures Queues(Started(s, r))
  {
    var t := Started(s, r);
    OpenQueues(s);
    assert NodeOk(s, r);
    ChangeFits(s.a.info, s.a.lists, r, t.a.info[r]);
    StartedLateNode(s, r);
    forall x | x in t.a.info && x != r
      ensures NodeOk(t, x)
    {
      assert NodeOk(s, x);
      StartedKept(s, r, x);
    }
  }

  lemma StartedLateNode(s: State, r: Ref)
    requires r in s.a.info && s.a.info[r].isAsync && !s.a.info[r].waiting && NodeOk(s, r)
    ensures NodeOk(Started(s, r), r)
  {
  }

  lemma StartedRest(s: State, r: Ref)
    requires Rest(s) && r in s.a.info
    ensures Rest(Started(s, r))
  {
    RestKept(s, Started(s, r));
  }

  /** The timeout reaches the waiter first. */
  function TimedOutNow(s: State, r: Ref): State
    requires r in s.a.info
  {
    var n := s.a.info[r];
    var t := Started(s, r);
    t.(a := t.a.(lists := Drop(t.a.lists, AtLocation(n.location), r)),
       busy := t.busy[n.isolate := [r]],
       fate := t.fate[r := Overdue])
  }

  lemma TimedOutQueues(s: State, r: Ref)
    requires Queues(s) && r in s.a.info && s.a.info[r].isAsync && AtItsLocation(s.a, r) && s.a.info[r].timeoutTask
    requires s.a.info[r].isolate in s.busy && s.busy[s.a.info[r].isolate] == []
    ensures Queues(TimedOutNow(s, r))
  {
    var t := TimedOutNow(s, r);
    OpenQueues(s);
    assert NodeOk(s, r);
    ChangeFits(s.a.info, s.a.lists, r, t.a.info[r]);
    DropIn(s.a.lists, AtLocation(s.a.info[r].location), r);
    DequeueFits(t.a.info, s.a.lists, AtLocation(s.a.info[r].location), r);
    NodesKept(s, t, r);
  }

  lemma TimedOutBusy(s: State, r: Ref)
    requires BusyOk(s) && r in s.a.info && s.a.info[r].isAsync && s.a.info[r].isolate in s.busy
    ensures BusyOk(TimedOutNow(s, r))
  {
    var t := TimedOutNow(s, r);
    forall k | k in t.busy
      ensures BusyAt(t, k)
    {
      assert BusyAt(s, k);
    }
  }

  lemma TimedOutRest(s: State, r: Ref)
    requires Rest(s) && r in s.a.info && s.a.info[r].isAsync && s.a.info[r].isolate in s.busy
    ensures Rest(TimedOutNow(s, r))
  {
    StartedRest(s, r);
    assert RestPartOk(s, HandPart) && RestPartOk(s, KeyPart);
    TimedOutBusy(s, r);
    RestWith(Started(s, r), TimedOutNow(s, r));
  }

  lemma KeepsTimeout(s: State, r: Ref)
    requires Inv(s) && Enabled(s, RunTimeout(r))
    ensures Inv(NextTimeout(s, r))
  {
    TimedNode(s, r);
    if s.a.info[r].waiting {
      TimedOutQueues(s, r);
      TimedOutRest(s, r);
      assert NextTimeout(s, r) == TimedOutNow(s, r);
    } else {
      StartedLate(s, r);
      StartedRest(s, r);
    }
  }

  // Resolving.

  lemma PendingTask(s: State, k: Isolate)
    requires Inv(s) && k in s.a.posted && k in s.alive
    ensures AtIsolate(k) in s.a.lists && s.a.posted[k] == 1 && k in s.busy
  {
    OpenQueues(s);
    OpenRest(s);
  }

  lemma TakenNode(s: State, t: State, k: Isolate, x: Ref)
    requires AllFit(s.a.info, s.a.lists) && x in s.a.info && NodeOk(s, x)
    requires k in s.busy && s.busy[k] == [] && AtIsolate(k) in s.a.lists
    requires t == s.(a := t.a, busy := s.busy[k := s.a.lists[AtIsolate(k)]])
    requires t.a.info == s.a.info && t.a.lists == s.a.lists - {AtIsolate(k)}
    ensures NodeOk(t, x)
  {
    if OnIsolate(s, x) {
      InFits(s.a.info, s.a.lists, AtIsolate(s.a.info[x].isolate), x);
    }
    if InHand(t, x) && s.a.info[x].isolate == k {
      InFits(s.a.info, s.a.lists, AtIsolate(k), x);
    }
  }

  lemma KeepsResolve(s: State, k: Isolate)
    requires Inv(s) && Enabled(s, RunResolve(k))
    ensures Inv(NextResolve(s, k))
  {
    var t := NextResolve(s, k);
    PendingTask(s, k);
    ResolveQueues(s, k);
    ResolveRest(s, k);
  }

  lemma ResolveQueues(s: State, k: Isolate)
    requires Queues(s) && k in s.busy && s.busy[k] == [] && AtIsolate(k) in s.a.lists && s.a.posted[k] == 1
    ensures Queues(NextResolve(s, k))
  {
    var t := NextResolve(s, k);
    OpenQueues(s);
    forall x | x in t.a.info
      ensures NodeOk(t, x)
    {
      assert NodeOk(s, x);
      TakenNode(s, t, k, x);
    }
    assert forall h :: h in t.a.lists ==> FitOn(s.a.info, h, s.a.lists[h]);
  }

  lemma ResolveRest(s: State, k: Isolate)
    requires Inv(s) && k in s.busy && AtIsolate(k) in s.a.lists
    ensures Rest(NextResolve(s, k))
  {
    var t := NextResolve(s, k);
    assert QueuePartOk(s, FitPart) && QueuePartOk(s, TidyPart) && RestPartOk(s, HandPart);
    assert FitOn(s.a.info, AtIsolate(k), s.a.lists[AtIsolate(k)]);
    forall j | j in t.busy
      ensures BusyAt(t, j)
    {
      assert BusyAt(s, j);
    }
    RestWith(s, t);
  }

  // Settling.

  /** A node in hand is on no list. */
  lemma HeldNode(s: State, k: Isolate)
    requires Inv(s) && k in s.busy && s.busy[k] != []
    ensures var r := s.busy[k][0];
            && r in s.a.info && NodeOk(s, r) && s.a.info[r].isAsync && s.a.info[r].isolate == k
            && (forall h :: !In(s.a.lists, h, r))
            && s.a.info[r].hasDeadline == s.a.info[r].waiting
            && !(s.a.info[r].waiting && s.a.info[r].cleanupOnly)
  {
    var r := s.busy[k][0];
    OpenRest(s);
    OpenQueues(s);
    assert BusyAt(s, k) && Owned(s.a.info, k, r);
    assert NodeOk(s, r) && InHand(s, r);
    forall h
      ensures !In(s.a.lists, h, r)
    {
      if In(s.a.lists, h, r) {
        InFits(s.a.info, s.a.lists, h, r);
      }
    }
  }

  lemma SettleQueues(s: State, k: Isolate, collected: bool)
    requires Queues(s) && k in s.busy && s.busy[k] != [] && Distinct(s.busy[k])
    requires s.busy[k][0] in s.a.info && s.a.info[s.busy[k][0]].isolate == k
    requires forall h :: !In(s.a.lists, h, s.busy[k][0])
    ensures Queues(NextSettle(s, k, collected))
  {
    var t := NextSettle(s, k, collected);
    var r := s.busy[k][0];
    OpenQueues(s);
    forall h | h in t.a.lists
      ensures FitOn(t.a.info, h, t.a.lists[h])
    {
      assert FitOn(s.a.info, h, s.a.lists[h]) && !In(s.a.lists, h, r);
    }
    TailMembers(s.busy[k]);
    NodesKept(s, t, r);
  }

  lemma TailMembers(b: seq<Ref>)
    requires b != [] && Distinct(b)
    ensures Distinct(b[1..]) && forall x :: x in b[1..] <==> x in b && x != b[0]
  {
    forall i, j | 0 <= i < j < |b| - 1
      ensures Apart(b[1..], i, j)
    {
      assert Apart(b, i + 1, j + 1);
    }
    forall i | 0 < i < |b|
      ensures b[i] != b[0]
    {
      assert Apart(b, 0, i);
    }
    assert b == [b[0]] + b[1..];
  }

  lemma SettleRest(s: State, k: Isolate, collected: bool)
    requires Rest(s) && k in s.busy && s.busy[k] != []
    requires s.busy[k][0] in s.a.info && NodeOk(s, s.busy[k][0]) && Owned(s.a.info, k, s.busy[k][0])
               && !AtItsLocation(s.a, s.busy[k][0])
    ensures Rest(NextSettle(s, k, collected))
  {
    var t := NextSettle(s, k, collected);
    OpenRest(s);
    TailMembers(s.busy[k]);
    forall j | j in t.busy
      ensures BusyAt(t, j)
    {
      SettleBusy(s, k, j, t);
    }
    SettleLog(s, k, collected);
  }

  lemma SettleBusy(s: State, k: Isolate, j: Isolate, t: State)
    requires BusyOk(s) && k in s.busy && s.busy[k] != [] && j in s.busy
    requires Owned(s.a.info, k, s.busy[k][0])
    requires t.busy == s.busy[k := s.busy[k][1..]] && t.a.info == s.a.info - {s.busy[k][0]}
    ensures BusyAt(t, j)
  {
    assert BusyAt(s, k) && BusyAt(s, j);
    TailMembers(s.busy[k]);
    forall i | 0 <= i < |t.busy[j]|
      ensures Owned(t.a.info, j, t.busy[j][i])
    {
      if j == k {
        assert t.busy[j][i] == s.busy[k][i + 1] && Apart(s.busy[k], 0, i + 1);
      } else {
        assert Owned(s.a.info, j, s.busy[j][i]);
      }
    }
  }

  lemma SettleLog(s: State, k: Isolate, collected: bool)
    requires LogOk(s) && k in s.busy && s.busy[k] != []
    requires s.busy[k][0] in s.a.info && NodeOk(s, s.busy[k][0]) && s.a.info[s.busy[k][0]].isAsync
               && !AtItsLocation(s.a, s.busy[k][0])
    ensures LogOk(NextSettle(s, k, collected))
  {
    var t := NextSettle(s, k, collected);
    forall i | 0 <= i < |t.log|
      ensures Settled(t, t.log[i])
    {
      assert i < |s.log| ==> Settled(s, s.log[i]);
    }
    forall i, j | 0 <= i < j < |t.log|
      ensures Different(t.log, i, j)
    {
      assert Settled(s, s.log[i]);
      assert j < |s.log| ==> Different(s.log, i, j);
    }
  }

  lemma KeepsSettle(s: State, k: Isolate, collected: bool)
    requires Inv(s) && Enabled(s, Settle(k, collected))
    ensures Inv(NextSettle(s, k, collected))
  {
    HeldNode(s, k);
    OpenRest(s);
    assert BusyAt(s, k);
    SettleQueues(s, k, collected);
    SettleRest(s, k, collected);
  }

  // Isolate teardown.

  lemma {:induction false} KeptMembers(info: map<Ref, Info>, k: Isolate, s: seq<Ref>)
    requires Distinct(s)
    ensures forall x :: x in Kept(info, k, s) <==> x in s && !Owned(info, k, x)
    ensures Distinct(Kept(info, k, s))
  {
    if s == [] {
    } else {
      TailMembers(s);
      KeptMembers(info, k, s[1..]);
      var t := Kept(info, k, s);
      assert forall x :: x in s <==> x == s[0] || x in s[1..];
      if !Owned(info, k, s[0]) {
        assert t[1..] == Kept(info, k, s[1..]);
        assert s[0] !in t[1..];
        forall i, j | 0 <= i < j < |t|
          ensures Apart(t, i, j)
        {
          assert if i == 0 then t[j] == t[1..][j - 1] else Apart(t[1..], i - 1, j - 1);
        }
      } else {
        assert t == Kept(info, k, s[1..]);
      }
    }
  }

  lemma SweptIn(a: Abs, k: Isolate, done: set<Home>)
    requires Tidy(a.lists)
    ensures Tidy(Swept(a, k, done).lists)
    ensures forall h, x :: In(Swept(a, k, done).lists, h, x) <==>
              In(a.lists, h, x) && !(h in done && Owned(a.info, k, x))
  {
    var b := Swept(a, k, done);
    forall h | h in a.lists && h in done
      ensures forall x :: x in Kept(a.info, k, a.lists[h]) <==> x in a.lists[h] && !Owned(a.info, k, x)
      ensures Distinct(Kept(a.info, k, a.lists[h]))
    {
      KeptMembers(a.info, k, a.lists[h]);
    }
    forall h, x
      ensures In(b.lists, h, x) <==> In(a.lists, h, x) && !(h in done && Owned(a.info, k, x))
    {
      if h in a.lists && h in done {
        assert x in Kept(a.info, k, a.lists[h]) <==> x in a.lists[h] && !Owned(a.info, k, x);
      }
    }
  }

  /** Whatever stands in `t` in some order stands in `s` in that order. */
  ghost predicate KeepsOrder(s: seq<Ref>, t: seq<Ref>) {
    forall i, j :: 0 <= i < j < |t| ==> StandInOrder(s, t[i], t[j])
  }

  ghost predicate StandInOrder(s: seq<Ref>, x: Ref, y: Ref) {
    exists i, j :: 0 <= i < j < |s| && s[i] == x && s[j] == y
  }

  lemma OrderInRest(s: seq<Ref>, x: Ref, y: Ref)
    requires s != [] && StandInOrder(s[1..], x, y)
    ensures StandInOrder(s, x, y)
  {
    var i, j :| 0 <= i < j < |s[1..]| && s[1..][i] == x && s[1..][j] == y;
    assert s[i + 1] == x && s[j + 1] == y;
  }

  lemma OrderFromHead(s: seq<Ref>, y: Ref)
    requires s != [] && y in s[1..]
    ensures StandInOrder(s, s[0], y)
  {
    var j :| 0 <= j < |s[1..]| && s[1..][j] == y;
    assert s[j + 1] == y;
  }

  lemma {:induction false} KeptWithin(info: map<Ref, Info>, k: Isolate, s: seq<Ref>)
    ensures forall x :: x in Kept(info, k, s) ==> x in s
  {
    if s == [] {
    } else {
      KeptWithin(info, k, s[1..]);
    }
  }

  lemma {:induction false} KeptInOrder(info: map<Ref, Info>, k: Isolate, s: seq<Ref>)
    ensures KeepsOrder(s, Kept(info, k, s))
  {
    if s == [] {
    } else {
      KeptInOrder(info, k, s[1..]);
      KeptWithin(info, k, s[1..]);
      OrderWith(s, Kept(info, k, s[1..]), !Owned(info, k, s[0]));
    }
  }

  lemma OrderWith(s: seq<Ref>, t: seq<Ref>, head: bool)
    requires s != [] && KeepsOrder(s[1..], t) && forall x :: x in t ==> x in s[1..]
    ensures KeepsOrder(s, (if head then [s[0]] else []) + t)
  {
    var u := (if head then [s[0]] else []) + t;
    forall i, j | 0 <= i < j < |u|
      ensures StandInOrder(s, u[i], u[j])
    {
      var from := if head then 1 else 0;
      assert u[j] == t[j - from];
      if i < from {
        OrderFromHead(s, u[j]);
      } else {
        assert StandInOrder(s[1..], t[i - from], t[j - from]);
        OrderInRest(s, u[i], u[j]);
      }
    }
  }

  /** Teardown removes the isolate's asynchronous waiters, all of them, from memory and from
      every list, and nothing else; the others keep their order. */
  lemma DeinitExact(s: State, k: Isolate)
    requires Inv(s) && Enabled(s, Deinit(k))
    ensures var a, b := s.a, Next(s, Deinit(k)).a;
            && (forall r :: r in b.info <==> r in a.info && !(a.info[r].isAsync && a.info[r].isolate == k))
            && (forall r :: r in b.info ==> b.info[r] == a.info[r])
            && (forall h, x :: In(b.lists, h, x) <==>
                 In(a.lists, h, x) && !(x in a.info && a.info[x].isAsync && a.info[x].isolate == k))
            && (forall h :: h in b.lists ==> h in a.lists && KeepsOrder(a.lists[h], b.lists[h]))
            && Tidy(b.lists) && b.posted == a.posted
  {
    var done := SweepOf(s.a, k);
    OpenQueues(s);
    SweptIn(s.a, k, done);
    forall r | r in s.a.info && Owned(s.a.info, k, r)
      ensures Listed(s.a, done, r)
    {
      assert NodeOk(s, r);
    }
    forall h, x | In(s.a.lists, h, x) && Owned(s.a.info, k, x)
      ensures h in done
    {
      InFits(s.a.info, s.a.lists, h, x);
    }
    DeinitOrder(s, k);
  }

  lemma DeinitOrder(s: State, k: Isolate)
    requires Queues(s)
    ensures var b := DeinitAt(s.a, k);
            forall h :: h in b.lists ==> h in s.a.lists && KeepsOrder(s.a.lists[h], b.lists[h])
  {
    OpenQueues(s);
    forall h | h in DeinitAt(s.a, k).lists
      ensures h in s.a.lists && KeepsOrder(s.a.lists[h], DeinitAt(s.a, k).lists[h])
    {
      KeptInOrder(s.a.info, k, s.a.lists[h]);
    }
  }

  /** `b` is `s.a` without the nodes of isolate `k`. */
  ghost predicate TornDown(s: State, b: Abs, k: Isolate) {
    && (forall r :: r in b.info <==> r in s.a.info && !Owned(s.a.info, k, r))
    && (forall r :: r in b.info ==> b.info[r] == s.a.info[r])
    && (forall h, x :: In(b.lists, h, x) <==> In(s.a.lists, h, x) && !Owned(s.a.info, k, x))
    && Tidy(b.lists) && b.posted == s.a.posted
  }

  lemma DeinitQueues(s: State, t: State, k: Isolate)
    requires Queues(s) && TornDown(s, t.a, k) && t == s.(a := t.a, alive := s.alive - {k})
    ensures Queues(t)
  {
    OpenQueues(s);
    forall h | h in t.a.lists
      ensures FitOn(t.a.info, h, t.a.lists[h])
    {
      forall i | 0 <= i < |t.a.lists[h]|
        ensures t.a.lists[h][i] in t.a.info && Fits(h, t.a.info[t.a.lists[h][i]])
      {
        assert In(t.a.lists, h, t.a.lists[h][i]);
        InFits(s.a.info, s.a.lists, h, t.a.lists[h][i]);
      }
    }
    NodesKept(s, t, NULL);
    forall j | j in t.alive
      ensures AtIsolate(j) in t.a.lists <==> AtIsolate(j) in s.a.lists
    {
      DeinitOthers(s, t.a, k, j);
    }
  }

  lemma DeinitOthers(s: State, b: Abs, k: Isolate, j: Isolate)
    requires Tidy(s.a.lists) && AllFit(s.a.info, s.a.lists) && TornDown(s, b, k) && j != k
    ensures AtIsolate(j) in b.lists <==> AtIsolate(j) in s.a.lists
  {
    var h := AtIsolate(j);
    if h in s.a.lists {
      var x := s.a.lists[h][0];
      InFits(s.a.info, s.a.lists, h, x);
      assert In(s.a.lists, h, x) && In(b.lists, h, x);
    }
    if h in b.lists {
      assert In(b.lists, h, b.lists[h][0]);
    }
  }

  lemma DeinitRest(s: State, t: State, k: Isolate)
    requires Rest(s) && TornDown(s, t.a, k) && t == s.(a := t.a, alive := s.alive - {k}) && Free(s, k)
    ensures Rest(t)
  {
    OpenRest(s);
    forall j | j in t.busy
      ensures BusyAt(t, j)
    {
      assert BusyAt(s, j);
    }
    LogKept(s, t);
  }

  lemma KeepsDeinit(s: State, k: Isolate)
    requires Inv(s) && Enabled(s, Deinit(k))
    ensures Inv(Next(s, Deinit(k)))
  {
    var t := Next(s, Deinit(k));
    DeinitExact(s, k);
    assert TornDown(s, t.a, k);
    DeinitQueues(s, t, k);
    DeinitRest(s, t, k);
  }

  // Synchronous waiters.

  lemma ThreadNode(s: State, k: Isolate)
    requires Inv(s) && k in s.sync
    ensures var r := s.sync[k].node;
            && r in s.a.info && NodeOk(s, r) && !s.a.info[r].isAsync && s.a.info[r].isolate == k
            && (forall h :: In(s.a.lists, h, r) ==> AtItsLocation(s.a, r) && h == AtLocation(s.a.info[r].location))
  {
    var r := s.sync[k].node;
    OpenQueues(s);
    OpenRest(s);
    forall h | In(s.a.lists, h, r)
      ensures AtItsLocation(s.a, r) && h == AtLocation(s.a.info[r].location)
    {
      InFits(s.a.info, s.a.lists, h, r);
    }
  }

  /** Only the thread's own record changes. */
  lemma KeepsRecord(s: State, k: Isolate, w: Waiter)
    requires Inv(s) && k in s.sync && w.node == s.sync[k].node && w.node in s.a.info
    requires NodeOk(s.(sync := s.sync[k := w]), w.node)
    ensures Inv(s.(sync := s.sync[k := w]))
  {
    var t := s.(sync := s.sync[k := w]);
    RecordQueues(s, t, k);
    RestKept(s, t);
  }

  lemma RecordQueues(s: State, t: State, k: Isolate)
    requires Queues(s) && k in s.sync && k in t.sync && t == s.(sync := s.sync[k := t.sync[k]])
               && t.sync[k].node == s.sync[k].node
    requires t.sync[k].node in s.a.info && NodeOk(t, t.sync[k].node)
    ensures Queues(t)
  {
    OpenQueues(s);
    forall x | x in t.a.info && x != t.sync[k].node
      ensures SameView(s, t, x)
    {
      assert NodeOk(s, x);
    }
    NodesKept(s, t, t.sync[k].node);
  }

  /** The node is off its list and no longer waiting, whatever the reason to leave. */
  lemma KeepsLeave(s: State, k: Isolate, result: Return)
    requires Inv(s) && k in s.sync && s.sync[k].phase != Idle && s.sync[k].node in s.a.info
    requires result == ReturnTimedOut ==> s.a.info[s.sync[k].node].waiting
    requires result == ReturnOk ==> !s.a.info[s.sync[k].node].waiting
    ensures Inv(Leave(s, k, result))
  {
    ThreadNode(s, k);
    LeaveQueues(s, k, result);
    var r, t := s.sync[k].node, Leave(s, k, result);
    assert t.a.info == s.a.info[r := s.a.info[r].(waiting := false)];
    RestKept(s, t);
  }

  lemma LeaveQueues(s: State, k: Isolate, result: Return)
    requires Queues(s) && k in s.sync && s.sync[k].phase != Idle
    requires var r := s.sync[k].node;
             r in s.a.info && !s.a.info[r].isAsync && AtItsLocation(s.a, r) && s.a.info[r].isolate == k
    requires result == ReturnTimedOut ==> s.a.info[s.sync[k].node].waiting
    requires result == ReturnOk ==> !s.a.info[s.sync[k].node].waiting
    ensures Queues(Leave(s, k, result))
  {
    var t, r := Leave(s, k, result), s.sync[k].node;
    var here := AtLocation(s.a.info[r].location);
    OpenQueues(s);
    assert NodeOk(s, r);
    DropIn(s.a.lists, here, r);
    ChangeFits(s.a.info, s.a.lists, r, t.a.info[r]);
    DequeueFits(t.a.info, s.a.lists, here, r);
    LeftNode(s, k, result);
    forall x | x in t.a.info && x != r
      ensures NodeOk(t, x)
    {
      assert NodeOk(s, x);
      LeaveKept(s, k, result, x);
    }
  }

  lemma LeftNode(s: State, k: Isolate, result: Return)
    requires Tidy(s.a.lists) && k in s.sync && s.sync[k].phase != Idle
    requires var r := s.sync[k].node;
             && r in s.a.info && !s.a.info[r].isAsync && AtItsLocation(s.a, r) && s.a.info[r].isolate == k
                  && NodeOk(s, r)
             && (result == ReturnTimedOut ==> s.a.info[r].waiting) && (result == ReturnOk ==> !s.a.info[r].waiting)
    ensures NodeOk(Leave(s, k, result), s.sync[k].node)
  {
    var r := s.sync[k].node;
    DropIn(s.a.lists, AtLocation(s.a.info[r].location), r);
  }

  lemma LeaveKept(s: State, k: Isolate, result: Return, x: Ref)
    requires Tidy(s.a.lists) && k in s.sync && AtItsLocation(s.a, s.sync[k].node)
    requires x in s.a.info && x != s.sync[k].node && NodeOk(s, x)
    ensures NodeOk(Leave(s, k, result), x)
  {
    var r := s.sync[k].node;
    DropIn(s.a.lists, AtLocation(s.a.info[r].location), r);
    NodeKept(s, Leave(s, k, result), x);
  }

  lemma KeepsWaitLoop(s: State, k: Isolate, elapsed: bool)
    requires Inv(s) && k in s.sync && s.sync[k].phase != Idle
    ensures Inv(WaitLoop(s, k, elapsed))
  {
    ThreadNode(s, k);
    var w := s.sync[k];
    if w.interrupted {
      KeepsRecord(s, k, w.(interrupted := false, phase := Handling));
    } else if !s.a.info[w.node].waiting {
      KeepsLeave(s, k, ReturnOk);
    } else if w.useTimeout && elapsed {
      KeepsLeave(s, k, ReturnTimedOut);
    } else {
      KeepsRecord(s, k, w.(phase := Blocked));
    }
  }

  /** The thread queues its node. */
  function Entered(s: State, k: Isolate, l: Location, useTimeout: bool): State
    requires k in s.sync && s.sync[k].node in s.a.info
  {
    var w := s.sync[k];
    s.(a := EnterAt(s.a, w.node, l),
       fate := s.fate[w.node := Queued],
       sync := s.sync[k := w.(phase := Blocked, useTimeout := useTimeout, result := None)])
  }

  lemma EnteredQueues(s: State, k: Isolate, l: Location, useTimeout: bool)
    requires Queues(s) && k in s.sync
    requires var r := s.sync[k].node;
             r in s.a.info && !s.a.info[r].isAsync && s.a.info[r].isolate == k && forall h :: !In(s.a.lists, h, r)
    ensures Queues(Entered(s, k, l, useTimeout))
  {
    var t, r := Entered(s, k, l, useTimeout), s.sync[k].node;
    OpenQueues(s);
    assert NodeOk(s, r);
    EnqueueIn(s.a.lists, AtLocation(l), r);
    forall h | h in s.a.lists
      ensures FitOn(t.a.info, h, s.a.lists[h])
    {
      assert FitOn(s.a.info, h, s.a.lists[h]) && !In(s.a.lists, h, r);
    }
    EnqueueFits(t.a.info, s.a.lists, AtLocation(l), r);
    forall x | x in t.a.info && x != r
      ensures SameView(s, t, x)
    {
      assert NodeOk(s, x);
    }
    NodesKept(s, t, r);
  }

  lemma IdleNode(s: State, k: Isolate)
    requires Inv(s) && k in s.sync && s.sync[k].phase == Idle
    ensures var r := s.sync[k].node;
            r in s.a.info && !s.a.info[r].waiting && Unlisted(s.a.lists, r) && forall h :: !In(s.a.lists, h, r)
  {
    ThreadNode(s, k);
    var r := s.sync[k].node;
    forall h | h in s.a.lists
      ensures r !in s.a.lists[h]
    {
      assert !In(s.a.lists, h, r);
    }
  }

  lemma KeepsWaitSync(s: State, k: Isolate, l: Location, equal: bool, useTimeout: bool, elapsed: bool)
    requires Inv(s) && k in s.sync && s.sync[k].phase == Idle
    ensures Inv(NextWaitSync(s, k, l, equal, useTimeout, elapsed))
  {
    IdleNode(s, k);
    ThreadNode(s, k);
    if equal {
      EnteredQueues(s, k, l, useTimeout);
      RestKept(s, Entered(s, k, l, useTimeout));
      KeepsWaitLoop(Entered(s, k, l, useTimeout), k, elapsed);
    } else {
      KeepsRecord(s, k, s.sync[k].(result := Some(ReturnNotEqual)));
    }
  }

  lemma KeepsInterrupt(s: State, k: Isolate)
    requires Inv(s) && k in s.sync
    ensures Inv(Next(s, Interrupt(k)))
  {
    ThreadNode(s, k);
    KeepsRecord(s, k, s.sync[k].(interrupted := true));
  }

  /** Every step of every isolate keeps the invariant; in particular no debug check
      fails and no deleted node is used. */
  lemma KeepsStep(s: State, step: Step)
    requires Inv(s) && Enabled(s, step)
    ensures Inv(Next(s, step))
  {
    match step {
      case WaitAsync(k, node, l, equal, timeout) =>
        if equal && timeout != Some(0) {
          KeepsWaitAsync(s, k, node, l, timeout.Some?);
        }
      case Expire(nodes) => KeepsExpire(s, nodes);
      case WakeUp(l, budget) => KeepsWakeUp(s, l, budget);
      case RunTimeout(r) => KeepsTimeout(s, r);
      case RunResolve(k) => KeepsResolve(s, k);
      case Settle(k, collected) => KeepsSettle(s, k, collected);
      case Deinit(k) => KeepsDeinit(s, k);
      case WaitSync(k, l, equal, useTimeout, elapsed) => KeepsWaitSync(s, k, l, equal, useTimeout, elapsed);
      case Resume(k, elapsed) => KeepsWaitLoop(s, k, elapsed);
      case Handled(k, exception, elapsed) =>
        if exception {
          ThreadNode(s, k);
          KeepsLeave(s, k, ReturnException);
        } else {
          KeepsWaitLoop(s, k, elapsed);
        }
      case Interrupt(k) => KeepsInterrupt(s, k);
    }
  }

  lemma InitHolds(s: State)
    requires Init(s)
    ensures Inv(s)
  {
    forall r | r in s.a.info
      ensures NodeOk(s, r)
    {
      assert InitNode(s, r);
    }
    assert forall k :: k in s.sync ==> InitNode(s, s.sync[k].node);
  }
}
