/** The wait list without its pointers: node contents, queues and posted tasks, and
    what each critical section does to them. */
module FutexState {
  import opened WaitQueues
  import opened FutexMemory

  datatype Abs = Abs(
    info: map<Ref, Info>,
    lists: map<Home, seq<Ref>>,
    posted: multiset<Isolate>)  // pending resolve tasks

  function Drop(lists: map<Home, seq<Ref>>, h: Home, r: Ref): map<Home, seq<Ref>> {
    if h in lists then Dequeue(lists, h, r) else lists
  }

  /** A waiter becomes its isolate's to resolve: out of its location's queue, onto the
      isolate's list, with a task posted when that list was empty. */
  function Notify(a: Abs, r: Ref): (b: Abs)
    requires r in a.info
    ensures b.info.Keys == a.info.Keys
  {
    var n := a.info[r];
    Abs(a.info[r := n.(hasDeadline := false)],
        Enqueue(Drop(a.lists, AtLocation(n.location), r), AtIsolate(n.isolate), r),
        if AtIsolate(n.isolate) in a.lists then a.posted else a.posted + multiset{n.isolate})
  }

  lemma DropOther(lists: map<Home, seq<Ref>>, h: Home, r: Ref, g: Home)
    requires g != h
    ensures g in Drop(lists, h, r) <==> g in lists
    ensures g in lists ==> Drop(lists, h, r)[g] == lists[g]
  {
  }

  /** The three changes of a notification, one after another. */
  lemma NotifyIs(a: Abs, r: Ref, left: map<Home, seq<Ref>>, b: Abs)
    requires r in a.info && b.info == a.info[r := a.info[r].(hasDeadline := false)]
    requires left == Drop(a.lists, AtLocation(a.info[r].location), r)
    requires var there := AtIsolate(a.info[r].isolate);
             && b.lists == Enqueue(left, there, r)
             && b.posted == if there in left then a.posted else a.posted + multiset{a.info[r].isolate}
    ensures b == Notify(a, r)
  {
    DropOther(a.lists, AtLocation(a.info[r].location), r, AtIsolate(a.info[r].isolate));
  }

  function Act(a: Abs, r: Ref, action: Action): (b: Abs)
    requires r in a.info
    ensures b.info.Keys == a.info.Keys
  {
    match action
    case Keep => a
    case Wake =>
      var b := a.(info := a.info[r := a.info[r].(waiting := false)]);
      if b.info[r].isAsync then Notify(b, r) else b
    case Clean =>
      Notify(a.(info := a.info[r := a.info[r].(waiting := false, cleanupOnly := true)]), r)
  }

  predicate Known(a: Abs, q: seq<Ref>) {
    forall i :: 0 <= i < |q| ==> q[i] in a.info
  }

  function ActUpto(a: Abs, q: seq<Ref>, p: seq<Action>, j: nat): (b: Abs)
    requires |q| == |p| && j <= |q| && Known(a, q)
    ensures b.info.Keys == a.info.Keys
  {
    if j == 0 then a else Act(ActUpto(a, q, p, j - 1), q[j - 1], p[j - 1])
  }

  function Kinds(a: Abs, q: seq<Ref>): (ks: seq<Kind>)
    requires Known(a, q)
    ensures |ks| == |q|
  {
    seq(|q|, i requires 0 <= i < |q| => KindOf(a.info[q[i]]))
  }

  function QueueAt(a: Abs, l: Location): seq<Ref> {
    if AtLocation(l) in a.lists then a.lists[AtLocation(l)] else []
  }

  /** One wake-up of at most `budget` waiters at `l`: new state and number woken. */
  function WakeAt(a: Abs, l: Location, budget: Budget): (Abs, nat)
    requires Known(a, QueueAt(a, l))
  {
    var q := QueueAt(a, l);
    var p := Plan(Kinds(a, q), budget);
    (ActUpto(a, q, p, |q|), CountWakes(p))
  }

  /** Acting on one node leaves the others' contents alone. */
  lemma {:induction false} ActUptoOthers(a: Abs, q: seq<Ref>, p: seq<Action>, j: nat, r: Ref)
    requires |q| == |p| && j <= |q| && Known(a, q) && r in a.info
    requires forall i :: 0 <= i < j ==> q[i] != r
    ensures ActUpto(a, q, p, j).info[r] == a.info[r]
    decreases j
  {
    if j == 0 {
    } else {
      ActUptoOthers(a, q, p, j - 1, r);
    }
  }

  lemma ActKeep(a: Abs, q: seq<Ref>, p: seq<Action>, j: nat, b: Abs)
    requires |q| == |p| && j < |q| && Known(a, q) && p[j] == Keep && ActUpto(a, q, p, j) == b
    ensures ActUpto(a, q, p, j + 1) == b
  {
  }

  /** Nodes the plan keeps in place do not change the state. */
  lemma {:induction false} ActUptoKeeps(a: Abs, q: seq<Ref>, p: seq<Action>, j: nat, k: nat, b: Abs)
    requires |q| == |p| && j <= k <= |q| && Known(a, q) && ActUpto(a, q, p, j) == b
    requires forall i :: j <= i < k ==> p[i] == Keep
    ensures ActUpto(a, q, p, k) == b
    decreases k - j
  {
    if j == k {
    } else {
      ActKeep(a, q, p, j, b);
      ActUptoKeeps(a, q, p, j + 1, k, b);
    }
  }

  /** While the traversal stands at `q[j]`, the location's queue is some kept nodes
      followed by the rest of `q`, and acting on `q[j]` keeps it so. */
  lemma ActAtFront(a: Abs, l: Location, q: seq<Ref>, j: nat, pre: seq<Ref>, action: Action)
    requires j < |q| && q[j] in a.info && a.info[q[j]].location == l
    requires AtLocation(l) in a.lists && a.lists[AtLocation(l)] == pre + q[j..]
    requires Distinct(pre + q[j..])
    ensures var b := Act(a, q[j], action);
            var moved := Moves(action, a.info[q[j]].isAsync);
            QueueAt(b, l) == (if moved then pre else pre + [q[j]]) + q[j + 1..]
  {
    var s := pre + q[j..];
    WithoutAt(s, |pre|);
    assert s[|pre|] == q[j];
    assert s[..|pre|] == pre && s[|pre| + 1..] == q[j + 1..];
    assert s == pre + [q[j]] + q[j + 1..];
  }

  lemma DistinctSplit(pre: seq<Ref>, q: seq<Ref>, j: nat)
    requires j < |q| && Distinct(pre + q[j..])
    ensures Distinct(q[j..]) && forall i :: j < i < |q| ==> q[i] != q[j]
  {
    var s := pre + q[j..];
    forall i, k | 0 <= i < k < |q[j..]|
      ensures Apart(q[j..], i, k)
    {
      assert Apart(s, |pre| + i, |pre| + k);
    }
    forall i | j < i < |q|
      ensures q[i] != q[j]
    {
      assert Apart(q[j..], 0, i - j);
    }
  }

  ghost predicate SameInfo(a: Abs, b: Abs, r: Ref) {
    r in a.info && r in b.info && a.info[r] == b.info[r]
  }

  /** Where a wake-up stands: at node number `j`, in state `now`, having left `pre` in
      the queue, with `budget` to go and `woken` waiters woken. */
  datatype Stage = Stage(now: Abs, j: nat, pre: seq<Ref>, budget: Budget, woken: nat)

  /** What the plan still has to do from node `j` on, and what it has done. */
  ghost predicate PlanLeft(ks: seq<Kind>, p: seq<Action>, j: nat, budget: Budget, woken: nat) {
    |p| == |ks| && j <= |p| && p[j..] == Plan(ks[j..], budget) && woken == CountWakes(p[..j])
  }

  /** The nodes from `j` on are as they were. */
  ghost predicate Untouched(a: Abs, now: Abs, q: seq<Ref>, j: nat) {
    forall i {:trigger SameInfo(a, now, q[i])} :: j <= i < |q| ==> SameInfo(a, now, q[i])
  }

  datatype ProgressPart = StatePart | QueuePart | NodesPart | PlanPart

  ghost predicate ProgressPartOk(a: Abs, l: Location, q: seq<Ref>, p: seq<Action>, g: Stage, part: ProgressPart)
    requires |p| == |q| && Known(a, q) && g.j <= |q|
  {
    match part
    case StatePart => Arrived(a, q, p, g.j, g.now)
    case QueuePart => QueueAt(g.now, l) == g.pre + q[g.j..]
    case NodesPart => Untouched(a, g.now, q, g.j)
    case PlanPart => PlanLeft(Kinds(a, q), p, g.j, g.budget, g.woken)
  }

  /** The wake-up of state `a` along queue `q` with plan `p` is at stage `g`. Part by part,
      so that a proof unfolds only the parts it names. */
  ghost predicate Progress(a: Abs, l: Location, q: seq<Ref>, p: seq<Action>, g: Stage) {
    && |p| == |q| && Known(a, q) && g.j <= |q|
    && forall part :: ProgressPartOk(a, l, q, p, g, part)
  }

  /** The next stage. After a cleanup the traversal is over. */
  function Advance(q: seq<Ref>, p: seq<Action>, g: Stage): Stage
    requires g.j < |q| == |p| && q[g.j] in g.now.info && g.budget > 0
  {
    var r, action := q[g.j], p[g.j];
    var after := Act(g.now, r, action);
    match action
    case Keep => Stage(after, g.j + 1, g.pre + [r], g.budget, g.woken)
    case Wake => Stage(after, g.j + 1, if g.now.info[r].isAsync then g.pre
        else g.pre + [r], Spend(g.budget), g.woken + 1)
    case Clean => Stage(after, |q|, g.pre + q[g.j + 1..], g.budget, g.woken)
  }

  /** The node a stage stands on. */
  function NodeAt(q: seq<Ref>, g: Stage): Ref {
    if g.j < |q| then q[g.j] else NULL
  }

  lemma ProgressStart(a: Abs, l: Location, budget: Budget)
    requires Known(a, QueueAt(a, l))
    ensures var q := QueueAt(a, l);
            Progress(a, l, q, Plan(Kinds(a, q), budget), Stage(a, 0, [], budget, 0))
  {
    var q := QueueAt(a, l);
    var p := Plan(Kinds(a, q), budget);
    assert q == [] + q[0..] && p[0..] == p && Kinds(a, q)[0..] == Kinds(a, q);
    assert p[..0] == [];
  }

  /** What the traversal must do to the node it stands on. */
  lemma ProgressAction(a: Abs, l: Location, q: seq<Ref>, p: seq<Action>, g: Stage)
    requires Progress(a, l, q, p, g) && g.j < |q| && g.budget > 0
    ensures SameInfo(a, g.now, q[g.j])
    ensures match KindOf(g.now.info[q[g.j]])
            case Wakeable => p[g.j] == Wake
            case Stuck => p[g.j] == Clean
            case _ => p[g.j] == Keep
  {
    assert ProgressPartOk(a, l, q, p, g, NodesPart) && ProgressPartOk(a, l, q, p, g, PlanPart);
    PlanHead(Kinds(a, q), p, g.j, g.budget);
  }

  /** `g` stands on a node of the queue at `l`. */
  ghost predicate OnQueue(l: Location, q: seq<Ref>, g: Stage) {
    && g.j < |q| && AtLocation(l) in g.now.lists && Distinct(g.pre + q[g.j..])
    && q[g.j] in g.now.info && g.now.info[q[g.j]].location == l
  }

  lemma PlanLeftNext(ks: seq<Kind>, p: seq<Action>, j: nat, budget: Budget, woken: nat)
    requires PlanLeft(ks, p, j, budget, woken) && j < |p| && budget > 0
    ensures p[j] == Keep ==> PlanLeft(ks, p, j + 1, budget, woken)
    ensures p[j] == Wake ==> PlanLeft(ks, p, j + 1, Spend(budget), woken + 1)
    ensures p[j] == Clean ==> PlanLeft(ks, p, j + 1, 0, woken)
  {
    PlanHead(ks, p, j, budget);
    CountWakesPrefix(p, j);
  }

  /** After a cleanup nothing is left to do, whatever the budget. */
  lemma PlanLeftOver(ks: seq<Kind>, p: seq<Action>, j: nat, woken: nat, budget: Budget)
    requires PlanLeft(ks, p, j, 0, woken)
    ensures PlanLeft(ks, p, |p|, budget, woken) && woken == CountWakes(p)
    ensures forall i :: j <= i < |p| ==> p[i] == Keep
  {
    PlanIdle(ks[j..], p, j);
    assert p[..|p|] == p && p[|p|..] == [] && ks[|p|..] == [];
  }

  lemma UntouchedNext(a: Abs, now: Abs, q: seq<Ref>, j: nat, action: Action)
    requires Untouched(a, now, q, j) && j < |q| && q[j] in now.info
    requires forall i :: j < i < |q| ==> q[i] != q[j]
    ensures Untouched(a, Act(now, q[j], action), q, j + 1)
  {
    forall i | j + 1 <= i < |q|
      ensures SameInfo(a, Act(now, q[j], action), q[i])
    {
      assert SameInfo(a, now, q[i]) && q[i] != q[j];
    }
  }

  lemma ProgressNext(a: Abs, l: Location, q: seq<Ref>, p: seq<Action>, g: Stage)
    requires Progress(a, l, q, p, g) && OnQueue(l, q, g) && g.budget > 0
    ensures Progress(a, l, q, p, Advance(q, p, g))
  {
    forall part
      ensures ProgressPartOk(a, l, q, p, Advance(q, p, g), part)
    {
      match part {
        case StatePart =>
          NextState(a, l, q, p, g);
        case QueuePart => NextQueue(a, l, q, p, g);
        case NodesPart => NextNodes(a, l, q, p, g);
        case PlanPart => NextPlan(a, l, q, p, g);
      }
    }
  }

  lemma ActNext(a: Abs, q: seq<Ref>, p: seq<Action>, j: nat, now: Abs, after: Abs)
    requires |q| == |p| && j < |q| && Known(a, q) && ActUpto(a, q, p, j) == now && after == Act(now, q[j], p[j])
    ensures ActUpto(a, q, p, j + 1) == after
  {
  }

  /** The state part of a stage, on its own. */
  ghost predicate Arrived(a: Abs, q: seq<Ref>, p: seq<Action>, j: nat, now: Abs)
    requires |p| == |q| && Known(a, q) && j <= |q|
  {
    ActUpto(a, q, p, j) == now
  }

  lemma ArrivedNext(a: Abs, l: Location, q: seq<Ref>, p: seq<Action>, g: Stage)
    requires Progress(a, l, q, p, g) && g.j < |q| && q[g.j] in g.now.info
    ensures Arrived(a, q, p, g.j + 1, Act(g.now, q[g.j], p[g.j]))
  {
    assert ProgressPartOk(a, l, q, p, g, StatePart);
    ActNext(a, q, p, g.j, g.now, Act(g.now, q[g.j], p[g.j]));
  }

  lemma ArrivedOver(a: Abs, l: Location, q: seq<Ref>, p: seq<Action>, g: Stage)
    requires Progress(a, l, q, p, g) && g.j < |q| && q[g.j] in g.now.info && g.budget > 0 && p[g.j] == Clean
    ensures Arrived(a, q, p, |q|, Act(g.now, q[g.j], Clean))
  {
    ArrivedNext(a, l, q, p, g);
    OverAfterClean(a, l, q, p, g);
    ActUptoKeeps(a, q, p, g.j + 1, |q|, Act(g.now, q[g.j], Clean));
  }

  lemma NextState(a: Abs, l: Location, q: seq<Ref>, p: seq<Action>, g: Stage)
    requires Progress(a, l, q, p, g) && g.j < |q| && q[g.j] in g.now.info && g.budget > 0
    ensures Advance(q, p, g).j <= |q| && Arrived(a, q, p, Advance(q, p, g).j, Advance(q, p, g).now)
  {
    if p[g.j] == Clean {
      ArrivedOver(a, l, q, p, g);
    } else {
      ArrivedNext(a, l, q, p, g);
    }
  }

  lemma OverAfterClean(a: Abs, l: Location, q: seq<Ref>, p: seq<Action>, g: Stage)
    requires Progress(a, l, q, p, g) && g.j < |q| && g.budget > 0 && p[g.j] == Clean
    ensures forall i :: g.j + 1 <= i < |q| ==> p[i] == Keep
  {
    assert ProgressPartOk(a, l, q, p, g, PlanPart);
    PlanLeftNext(Kinds(a, q), p, g.j, g.budget, g.woken);
    PlanLeftOver(Kinds(a, q), p, g.j + 1, g.woken, 0);
  }

  lemma NextQueue(a: Abs, l: Location, q: seq<Ref>, p: seq<Action>, g: Stage)
    requires Progress(a, l, q, p, g) && OnQueue(l, q, g) && g.budget > 0
    ensures ProgressPartOk(a, l, q, p, Advance(q, p, g), QueuePart)
  {
    assert ProgressPartOk(a, l, q, p, g, QueuePart);
    ActAtFront(g.now, l, q, g.j, g.pre, p[g.j]);
    var next := Advance(q, p, g);
    if p[g.j] == Clean {
      assert next.pre + q[|q|..] == next.pre;
    }
  }

  lemma NextNodes(a: Abs, l: Location, q: seq<Ref>, p: seq<Action>, g: Stage)
    requires Progress(a, l, q, p, g) && OnQueue(l, q, g) && g.budget > 0
    ensures ProgressPartOk(a, l, q, p, Advance(q, p, g), NodesPart)
  {
    assert ProgressPartOk(a, l, q, p, g, NodesPart);
    DistinctSplit(g.pre, q, g.j);
    UntouchedNext(a, g.now, q, g.j, p[g.j]);
  }

  lemma NextPlan(a: Abs, l: Location, q: seq<Ref>, p: seq<Action>, g: Stage)
    requires Progress(a, l, q, p, g) && g.j < |q| && q[g.j] in g.now.info && g.budget > 0
    ensures ProgressPartOk(a, l, q, p, Advance(q, p, g), PlanPart)
  {
    assert ProgressPartOk(a, l, q, p, g, PlanPart);
    PlanLeftNext(Kinds(a, q), p, g.j, g.budget, g.woken);
    if p[g.j] == Clean {
      PlanLeftOver(Kinds(a, q), p, g.j + 1, g.woken, g.budget);
    }
  }

  /** One turn of the traversal at node `r`, whose successor is `next`: the new state, the
      node to go on with, the budget left and the count. A waiter is woken unless its
      backing store is gone; one that then has no timeout either ends the traversal. */
  ghost predicate Visited(a: Abs, r: Ref, next: Ref, budget: Budget, count: nat, b: Abs, node: Ref, left: Budget,
                          woken: nat) {
    && r in a.info && budget > 0
    && var n := a.info[r];
    if n.waiting && (!n.isAsync || !n.expired) then
      b == Act(a, r, Action.Wake) && node == next && left == Spend(budget) && woken == count + 1
    else if n.waiting && !n.hasDeadline then
      b == Act(a, r, Clean) && node == NULL && left == budget && woken == count
    else
      b == a && node == next && left == budget && woken == count
  }

  lemma VisitedOnce(a: Abs, r: Ref, next: Ref, budget: Budget, count: nat,
                    b: Abs, node: Ref, left: Budget, woken: nat, b': Abs, node': Ref, left': Budget, woken': nat)
    requires Visited(a, r, next, budget, count, b, node, left, woken)
    requires Visited(a, r, next, budget, count, b', node', left', woken')
    ensures b == b' && node == node' && left == left' && woken == woken'
  {
  }

  /** How a stage advances, by the kind of node it stands on. */
  ghost predicate Advances(q: seq<Ref>, g: Stage, after: Stage) {
    && g.j < |q|
    && Visited(g.now, q[g.j], if g.j + 1 < |q| then q[g.j + 1] else NULL, g.budget, g.woken,
               after.now, NodeAt(q, after), after.budget, after.woken)
  }

  lemma ProgressAdvances(a: Abs, l: Location, q: seq<Ref>, p: seq<Action>, g: Stage)
    requires Progress(a, l, q, p, g) && g.j < |q| && g.budget > 0
    ensures SameInfo(a, g.now, q[g.j]) && Advances(q, g, Advance(q, p, g))
    ensures g.j < Advance(q, p, g).j <= |q|
  {
    ProgressAction(a, l, q, p, g);
  }

  lemma ProgressDone(a: Abs, l: Location, budget: Budget, q: seq<Ref>, p: seq<Action>, g: Stage)
    requires Known(a, QueueAt(a, l)) && q == QueueAt(a, l) && p == Plan(Kinds(a, q), budget)
    requires Progress(a, l, q, p, g) && (g.j == |q| || g.budget == 0)
    ensures (g.now, g.woken) == WakeAt(a, l, budget)
  {
    assert ProgressPartOk(a, l, q, p, g, StatePart) && ProgressPartOk(a, l, q, p, g, PlanPart);
    if g.j < |q| {
      PlanLeftOver(Kinds(a, q), p, g.j, g.woken, 0);
      ActUptoKeeps(a, q, p, g.j, |q|, g.now);
    }
    assert p[..|q|] == p;
  }

  // Waiting.

  /** A new asynchronous waiter at the end of its location's queue. */
  function WaitAsyncAt(a: Abs, k: Isolate, node: Ref, l: Location, timeout: bool): Abs {
    a.(info := a.info[node := Info(true, k, l, true, false, timeout, timeout, false)],
       lists := Enqueue(a.lists, AtLocation(l), node))
  }

  /** A synchronous waiter queues its isolate's node ... */
  function EnterAt(a: Abs, r: Ref, l: Location): Abs
    requires r in a.info
  {
    a.(info := a.info[r := a.info[r].(location := l, waiting := true)], lists := Enqueue(a.lists, AtLocation(l), r))
  }

  /** ... and takes it out again. */
  function LeaveAt(a: Abs, r: Ref): Abs
    requires r in a.info
  {
    var n := a.info[r];
    a.(info := a.info[r := n.(waiting := false)], lists := Drop(a.lists, AtLocation(n.location), r))
  }

  // Settling promises.

  datatype Outcome = Ok | TimedOut

  datatype Settlement = Settlement(node: Ref, outcome: Outcome)

  /** What settling the promise of waiter `r` resolves: nothing if the waiter is only to
      be cleaned up or the promise has been collected. */
  function Settlements(n: Info, r: Ref, collected: bool): seq<Settlement> {
    if n.cleanupOnly || collected then [] else [Settlement(r, if n.hasDeadline then TimedOut else Ok)]
  }

  /** The same for a whole list, in order. */
  function AllSettlements(info: map<Ref, Info>, q: seq<Ref>, collected: set<Ref>): seq<Settlement>
    requires forall i :: 0 <= i < |q| ==> q[i] in info
  {
    if q == [] then []
    else AllSettlements(info, q[..|q| - 1], collected) + Settlements(info[q[|q| - 1]], q[|q| - 1],
        q[|q| - 1] in collected)
  }

  // Deleting nodes.

  predicate In(lists: map<Home, seq<Ref>>, h: Home, r: Ref) {
    h in lists && r in lists[h]
  }

  function Delete(a: Abs, r: Ref): Abs {
    a.(info := a.info - {r})
  }

  /** The resolve task takes its isolate's whole list. */
  function Take(a: Abs, k: Isolate): Abs {
    a.(lists := a.lists - {AtIsolate(k)})
  }

  predicate Owned(info: map<Ref, Info>, k: Isolate, r: Ref) {
    r in info && info[r].isAsync && info[r].isolate == k
  }

  /** A queue without the nodes of isolate `k`. */
  function Kept(info: map<Ref, Info>, k: Isolate, s: seq<Ref>): (t: seq<Ref>)
    ensures |t| <= |s|
  {
    if s == [] then [] else (if Owned(info, k, s[0]) then [] else [s[0]]) + Kept(info, k, s[1..])
  }

  /** The nodes of isolate `k` on one of the lists `done`. */
  function Evicted(a: Abs, k: Isolate, done: set<Home>): set<Ref> {
    set r | r in a.info && Owned(a.info, k, r) && Listed(a, done, r)
  }

  predicate Listed(a: Abs, done: set<Home>, r: Ref)
    requires r in a.info
  {
    || (AtLocation(a.info[r].location) in done && In(a.lists, AtLocation(a.info[r].location), r))
    || (AtIsolate(a.info[r].isolate) in done && In(a.lists, AtIsolate(a.info[r].isolate), r))
  }

  /** Isolate `k` swept from the lists `done`. */
  function Swept(a: Abs, k: Isolate, done: set<Home>): Abs {
    Abs(a.info - Evicted(a, k, done),
        map h | h in a.lists && (h in done ==> Kept(a.info, k, a.lists[h]) != []) ::
          if h in done then Kept(a.info, k, a.lists[h]) else a.lists[h],
        a.posted)
  }

  /** Every location's list and the isolate's own. */
  function SweepOf(a: Abs, k: Isolate): set<Home> {
    set h | h in a.lists && (h.AtLocation? || h == AtIsolate(k))
  }

  function DeinitAt(a: Abs, k: Isolate): Abs {
    Swept(a, k, SweepOf(a, k))
  }

  /** A timeout task: a waiter still waiting is unlinked and deleted, any other only
      forgets its task. */
  function TimeoutAt(a: Abs, r: Ref): Abs
    requires r in a.info
  {
    var b := a.(info := a.info[r := a.info[r].(timeoutTask := false)]);
    if !a.info[r].waiting then b
    else Delete(b.(lists := Drop(b.lists, AtLocation(a.info[r].location), r)), r)
  }
}
