/** What holds over every run of the futex. */
module FutexResults {
  import opened WaitQueues
  import opened FutexMemory
  import opened FutexState
  import opened FutexRuns
  import opened FutexInvariant
  import opened FutexSteps
  import opened FutexWakes

  // One wake-up, exactly.

  /** The nodes of `q[..j]` that stay in the queue, in order. */
  function Staying(info: map<Ref, Info>, q: seq<Ref>, p: seq<Action>, j: nat): seq<Ref>
    requires j <= |q| == |p|
  {
    if j == 0 then [] else
      var r := q[j - 1];
      Staying(info, q, p, j - 1) + if r in info && Moves(p[j - 1], info[r].isAsync) then [] else [r]
  }

  /** The nodes of `q[..j]` that move to isolate `k`, in order. */
  function Moving(info: map<Ref, Info>, q: seq<Ref>, p: seq<Action>, j: nat, k: Isolate): seq<Ref>
    requires j <= |q| == |p|
  {
    if j == 0 then [] else
      var r := q[j - 1];
      Moving(info, q, p, j - 1, k) +
      if r in info && Moves(p[j - 1], info[r].isAsync) && info[r].isolate == k then [r] else []
  }

  /** `q` is the queue at `l` and `p` what a wake-up of `budget` does to it. */
  ghost predicate Planned(s: State, l: Location, budget: Budget, q: seq<Ref>, p: seq<Action>) {
    Inv(s) && q == QueueAt(s.a, l) && Known(s.a, q) && p == Plan(Kinds(s.a, q), budget)
  }

  /** The wake-up follows its plan, and all is well after every node. */
  lemma PlanHolds(s: State, l: Location, budget: Budget, q: seq<Ref>, p: seq<Action>, j: nat)
    requires Planned(s, l, budget, q, p) && j < |q|
    ensures Follows(s.a, q, p, j) && WellUpto(s, l, q, p, j) && Distinct(q)
  {
    forall i | 0 <= i < |q|
      ensures Follows(s.a, q, p, i)
    {
      PlanExact(Kinds(s.a, q), budget, i);
    }
    KeepsReachUpto(s, l, q, p, j);
    QueueFacts(s, l);
  }

  function ListAt(a: Abs, h: Home): seq<Ref> {
    ListOf(a.lists, h)
  }

  function ListOf(lists: map<Home, seq<Ref>>, h: Home): seq<Ref> {
    if h in lists then lists[h] else []
  }

  lemma MoveOverAt(lists: map<Home, seq<Ref>>, n: Info, r: Ref, h: Home)
    requires AtLocation(n.location) in lists
    ensures ListOf(MoveOver(lists, n, r), h) ==
              if h == AtLocation(n.location) then Without(lists[h], r)
              else if h == AtIsolate(n.isolate) then ListOf(lists, h) + [r]
              else ListOf(lists, h)
  {
  }

  lemma ActLists(a: Abs, r: Ref, action: Action, h: Home)
    requires r in a.info && (action == Clean ==> a.info[r].isAsync)
    requires AtLocation(a.info[r].location) in a.lists
    ensures var b := Act(a, r, action);
            ListAt(b, h) ==
              if !Moves(action, a.info[r].isAsync) then ListAt(a, h)
              else if h == AtLocation(a.info[r].location) then Without(ListAt(a, h), r)
              else if h == AtIsolate(a.info[r].isolate) then ListAt(a, h) + [r]
              else ListAt(a, h)
  {
    if action != Keep && a.info[r].isAsync {
      ActMoves(a, r, action);
      MoveOverAt(a.lists, a.info[r], r, h);
    }
  }

  /** List `h` once the first `j` nodes have been acted on: the queue keeps those that
      do not move, and each isolate's list gains those that move to it, in order. */
  function ListAfter(a: Abs, l: Location, q: seq<Ref>, p: seq<Action>, j: nat, h: Home): seq<Ref>
    requires j <= |q| == |p|
  {
    if h == AtLocation(l) then Staying(a.info, q, p, j) + q[j..]
    else if h.AtLocation? then ListAt(a, h)
    else ListAt(a, h) + Moving(a.info, q, p, j, h.isolate)
  }

  ghost predicate ListIs(a: Abs, b: Abs, l: Location, q: seq<Ref>, p: seq<Action>, j: nat, h: Home)
    requires j <= |q| == |p|
  {
    ListAt(b, h) == ListAfter(a, l, q, p, j, h)
  }

  /** The list once the wake-up of `s` has acted on the first `j` nodes. */
  ghost predicate ListUpto(s: State, l: Location, q: seq<Ref>, p: seq<Action>, j: nat, h: Home)
    requires j <= |q| == |p| && Known(s.a, q)
  {
    exists b: Abs :: ListBy(s, b, l, q, p, j, h)
  }

  ghost predicate ListBy(s: State, b: Abs, l: Location, q: seq<Ref>, p: seq<Action>, j: nat, h: Home)
    requires j <= |q| == |p| && Known(s.a, q)
  {
    ActUpto(s.a, q, p, j) == b && ListIs(s.a, b, l, q, p, j, h)
  }

  lemma {:induction false} WakeList(s: State, l: Location, budget: Budget, q: seq<Ref>, p: seq<Action>, j: nat, h: Home)
    requires Planned(s, l, budget, q, p) && j <= |q|
    ensures ListUpto(s, l, q, p, j, h)
    decreases j
  {
    if j == 0 {
      ListStart(s, l, q, p, h);
    } else {
      WakeList(s, l, budget, q, p, j - 1, h);
      WakeListNext(s, l, budget, q, p, j - 1, j, h);
    }
  }

  lemma ListStart(s: State, l: Location, q: seq<Ref>, p: seq<Action>, h: Home)
    requires q == QueueAt(s.a, l) && |p| == |q| && Known(s.a, q)
    ensures ListUpto(s, l, q, p, 0, h)
  {
    assert q[0..] == q;
    assert ListBy(s, s.a, l, q, p, 0, h);
  }

  lemma WakeListNext(s: State, l: Location, budget: Budget, q: seq<Ref>, p: seq<Action>, j: nat, n: nat, h: Home)
    requires Planned(s, l, budget, q, p) && n == j + 1 <= |q| && ListUpto(s, l, q, p, j, h)
    ensures ListUpto(s, l, q, p, n, h)
  {
    PlanHolds(s, l, budget, q, p, j);
    var t := ReachUpto(s, q, p, j);
    assert Ahead(s, t, l, q[j]);
    HereFacts(t, l, q[j]);
    var b := Act(t.a, q[j], p[j]);
    ActNext(s.a, q, p, j, t.a, b);
    if h == AtLocation(l) {
      QueueNext(s.a, t.a, l, q, p, j);
    } else {
      ElsewhereNext(s.a, t.a, l, q, p, j, h);
    }
    assert ListBy(s, b, l, q, p, n, h);
  }

  lemma QueueNext(a: Abs, b: Abs, l: Location, q: seq<Ref>, p: seq<Action>, j: nat)
    requires j < |q| == |p| && ListIs(a, b, l, q, p, j, AtLocation(l)) && SameInfo(a, b, q[j])
    requires b.info[q[j]].location == l && AtLocation(l) in b.lists && Distinct(b.lists[AtLocation(l)])
    ensures ListIs(a, Act(b, q[j], p[j]), l, q, p, j + 1, AtLocation(l))
  {
    ActAtFront(b, l, q, j, Staying(a.info, q, p, j), p[j]);
  }

  lemma ElsewhereNext(a: Abs, b: Abs, l: Location, q: seq<Ref>, p: seq<Action>, j: nat, h: Home)
    requires j < |q| == |p| && ListIs(a, b, l, q, p, j, h) && SameInfo(a, b, q[j]) && h != AtLocation(l)
    requires p[j] == Clean ==> b.info[q[j]].isAsync
    requires b.info[q[j]].location == l && AtLocation(l) in b.lists
    ensures ListIs(a, Act(b, q[j], p[j]), l, q, p, j + 1, h)
  {
    ActLists(b, q[j], p[j], h);
  }

  lemma HereFacts(s: State, l: Location, r: Ref)
    requires Inv(s) && In(s.a.lists, AtLocation(l), r)
    ensures r in s.a.info && s.a.info[r].location == l && Distinct(s.a.lists[AtLocation(l)])
    ensures NodeOk(s, r) && AtItsLocation(s.a, r)
  {
    OpenQueues(s);
    InFits(s.a.info, s.a.lists, AtLocation(l), r);
  }

  /** A wake-up takes the asynchronous waiters it reaches off the queue, keeping the
      order of the rest, hands each to its own isolate in queue order, and touches no
      other location's queue. */
  lemma WakeKeepsOrder(s: State, l: Location, budget: Budget)
    requires Inv(s)
    ensures Known(s.a, QueueAt(s.a, l))
    ensures var q := QueueAt(s.a, l);
            var p := Plan(Kinds(s.a, q), budget);
            forall h :: ListAt(NextWake(s, l, budget).a, h) == ListAfter(s.a, l, q, p, |q|, h)
  {
    QueueFacts(s, l);
    KeepsWakeUp(s, l, budget);
    var q := QueueAt(s.a, l);
    var p := Plan(Kinds(s.a, q), budget);
    forall h
      ensures ListAt(NextWake(s, l, budget).a, h) == ListAfter(s.a, l, q, p, |q|, h)
    {
      WakeList(s, l, budget, q, p, |q|, h);
    }
  }

  // What reaches a node.

  function FateAfter(action: Action, f: Fate): Fate {
    match action
    case Keep => f
    case Wake => Awoken
    case Clean => Discarded
  }

  ghost predicate FatesAre(f: map<Ref, Fate>, g: map<Ref, Fate>, q: seq<Ref>, p: seq<Action>, j: nat)
    requires j <= |q| == |p|
  {
    && g.Keys == f.Keys
    && (forall i :: 0 <= i < j ==> q[i] in g && q[i] in f && g[q[i]] == FateAfter(p[i], f[q[i]]))
    && (forall r :: r in f && r !in q[..j] ==> g[r] == f[r])
  }

  lemma FatesNext(f: map<Ref, Fate>, g: map<Ref, Fate>, q: seq<Ref>, p: seq<Action>, j: nat)
    requires j < |q| == |p| && Distinct(q) && FatesAre(f, g, q, p, j) && q[j] in g
    ensures FatesAre(f, g[q[j] := FateAfter(p[j], g[q[j]])], q, p, j + 1)
  {
    forall i | 0 <= i < j
      ensures q[i] != q[j]
    {
      assert Apart(q, i, j);
    }
    assert q[..j + 1] == q[..j] + [q[j]];
    assert q[j] !in q[..j];
  }

  ghost predicate FatesUpto(s: State, q: seq<Ref>, p: seq<Action>, j: nat)
    requires j <= |q| == |p|
  {
    var t := ReachUpto(s, q, p, j);
    FatesAre(s.fate, t.fate, q, p, j) && t.sync == s.sync && t.log == s.log && t.timers == s.timers
  }

  lemma {:induction false} WakeFates(s: State, l: Location, budget: Budget, q: seq<Ref>, p: seq<Action>, j: nat)
    requires Planned(s, l, budget, q, p) && j <= |q|
    ensures FatesUpto(s, q, p, j)
    decreases j
  {
    if j == 0 {
      assert FatesAre(s.fate, s.fate, q, p, 0);
    } else {
      PlanHolds(s, l, budget, q, p, j - 1);
      WakeFates(s, l, budget, q, p, j - 1);
      WakeFatesNext(s, l, q, p, j - 1);
    }
  }

  lemma WakeFatesNext(s: State, l: Location, q: seq<Ref>, p: seq<Action>, j: nat)
    requires j < |q| == |p| && Known(s.a, q) && FatesUpto(s, q, p, j) && WellUpto(s, l, q, p, j)
    requires Follows(s.a, q, p, j) && Distinct(q)
    ensures FatesUpto(s, q, p, j + 1)
  {
    var t := ReachUpto(s, q, p, j);
    assert Ahead(s, t, l, q[j]);
    ReachFate(t, l, q[j], p[j]);
    FatesNext(s.fate, t.fate, q, p, j);
  }

  lemma ReachFate(s: State, l: Location, r: Ref, action: Action)
    requires Inv(s) && In(s.a.lists, AtLocation(l), r) && r in s.a.info
    requires action == Clean ==> KindOf(s.a.info[r]) == Stuck
    ensures r in s.fate
    ensures var t := Reach(s, r, action);
            && t.fate == s.fate[r := FateAfter(action, s.fate[r])]
            && t.sync == s.sync && t.log == s.log && t.timers == s.timers
  {
    HereFacts(s, l, r);
  }

  /** What one wake-up does to each waiter in the queue: woken exactly the oldest ready
      ones it can afford, none of which had been reached before. */
  lemma WakeReaches(s: State, l: Location, budget: Budget, i: nat)
    requires Inv(s) && i < |QueueAt(s.a, l)|
    ensures var q := QueueAt(s.a, l);
            var t := NextWake(s, l, budget);
            && q[i] in s.fate && q[i] in t.fate
            && (t.fate[q[i]] != s.fate[q[i]] ==> s.fate[q[i]] == Queued)
            && ((s.fate[q[i]] == Queued && t.fate[q[i]] == Awoken) <==> IsWoken(s.a.info, q, budget, i))
            && ((s.fate[q[i]] == Queued && t.fate[q[i]] == Discarded) <==> IsCleaned(s.a.info, q, budget, i))
            && t.fate[q[i]] != Overdue
  {
    QueueFacts(s, l);
    var q := QueueAt(s.a, l);
    var p := Plan(Kinds(s.a, q), budget);
    WakeFates(s, l, budget, q, p, |q|);
    PlanIs(s.a, q, budget, i);
    PlanHolds(s, l, budget, q, p, i);
    assert Ahead(s, s, l, q[i]);
    HereFacts(s, l, q[i]);
  }

  /** The nodes a wake-up is the first to reach. */
  ghost function NewlyAwoken(s: State, t: State): set<Ref> {
    set r | r in s.fate && r in t.fate && s.fate[r] == Queued && t.fate[r] == Awoken
  }

  lemma {:induction false} NodesOfSize(q: seq<Ref>, at: set<nat>)
    requires Distinct(q) && forall i :: i in at ==> i < |q|
    ensures |set i | i in at :: q[i]| == |at|
  {
    var nodes := set i | i in at :: q[i];
    if at == {} {
      assert nodes == {};
    } else {
      var j :| j in at;
      NodesOfSize(q, at - {j});
      var fewer := set i | i in at - {j} :: q[i];
      forall i | i in at - {j}
        ensures q[i] != q[j]
      {
        assert if i < j then Apart(q, i, j) else Apart(q, j, i);
      }
      assert nodes == fewer + {q[j]} && q[j] !in fewer;
    }
  }

  /** The number a wake-up returns is the number of waiters it was the first to reach:
      none is counted twice, although woken synchronous waiters stay in the queue. With
      nobody waiting for ever it is the smaller of the budget and the waiters ready. */
  lemma WakeCountsOnce(s: State, l: Location, budget: Budget)
    requires Inv(s)
    ensures Known(s.a, QueueAt(s.a, l))
    ensures var woken := WakeAt(s.a, l, budget).1;
            var q := QueueAt(s.a, l);
            && woken == |NewlyAwoken(s, NextWake(s, l, budget))|
            && ((forall i :: 0 <= i < |q| ==> !Stray(s.a.info, q[i])) ==>
                 var ready := |ReadyBefore(s.a.info, q, |q|)|;
                 woken == if Allows(budget, ready) then ready else budget)
  {
    QueueFacts(s, l);
    var q := QueueAt(s.a, l);
    WakeCount(s.a, q, budget);
    NewlyAwokenAre(s, l, budget);
    NodesOfSize(q, WokenOnes(s.a.info, q, budget));
    if forall i :: 0 <= i < |q| ==> !Stray(s.a.info, q[i]) {
      WakeCountReady(s.a, q, budget);
    }
  }

  lemma NewlyAwokenAre(s: State, l: Location, budget: Budget)
    requires Inv(s)
    ensures var q := QueueAt(s.a, l);
            NewlyAwoken(s, NextWake(s, l, budget)) == set i | i in WokenOnes(s.a.info, q, budget) :: q[i]
  {
    QueueFacts(s, l);
    var q := QueueAt(s.a, l);
    var p := Plan(Kinds(s.a, q), budget);
    var t := NextWake(s, l, budget);
    WakeFates(s, l, budget, q, p, |q|);
    assert q[..|q|] == q;
    forall i | 0 <= i < |q|
      ensures q[i] in NewlyAwoken(s, t) <==> i in WokenOnes(s.a.info, q, budget)
    {
      WakeReaches(s, l, budget, i);
    }
    forall r | r in NewlyAwoken(s, t)
      ensures r in q
    {
    }
  }
}
