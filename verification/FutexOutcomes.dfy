/** What becomes of a waiter, from the step that reaches it to the result it gets. */
module FutexOutcomes {
  import opened Basics
  import opened WaitQueues
  import opened FutexMemory
  import opened FutexState
  import opened FutexRuns
  import opened FutexInvariant
  import opened FutexSteps
  import opened FutexWakes
  import opened FutexResults
  import opened FutexHistories

  // Promises.

  /** What settling the waiter `r` resolves, by what reached it first. */
  function Due(fate: Fate, r: Ref, collected: bool): seq<Settlement> {
    if collected then []
    else match fate
      case Awoken => [Settlement(r, Ok)]
      case Overdue => [Settlement(r, TimedOut)]
      case _ => []
  }

  /** A timeout task reaches its waiter exactly if nothing has, and then takes it in hand. */
  lemma TimeoutExact(s: State, r: Ref)
    requires Inv(s) && Enabled(s, RunTimeout(r))
    ensures var t, k := NextTimeout(s, r), s.owner[r];
            && r in s.fate && r in t.fate && k in t.busy
            && t.fate[r] == (if s.fate[r] == Queued then Overdue else s.fate[r])
            && t.busy[k] == (if s.fate[r] == Queued then [r] else [])
            && r !in t.timers
  {
    TimedNode(s, r);
  }

  /** A settling step resolves exactly what its waiter is due: "ok" if a wake-up was the
      first to reach it, "timed-out" if its timeout was, nothing if it was discarded or its
      promise collected; and the waiter is gone. */
  lemma SettleExact(s: State, k: Isolate, collected: bool)
    requires Inv(s) && Enabled(s, Settle(k, collected))
    ensures var t, r := NextSettle(s, k, collected), s.busy[k][0];
            && r in s.fate && s.fate[r] in {Awoken, Overdue, Discarded}
            && t.log == s.log + Due(s.fate[r], r, collected)
            && r in s.a.info && r !in t.a.info && t.busy[k] == s.busy[k][1..]
  {
    HeldNode(s, k);
    var r := s.busy[k][0];
    assert InHand(s, r) && NodeOk(s, r);
  }

  /** Step `j` settles waiter `r`. */
  ghost predicate SettlesAtStep(h: History, j: nat, r: Ref)
    requires |h.states| == |h.steps| + 1
  {
    && j < |h.steps| && h.steps[j].Settle? && h.steps[j].k in h.states[j].busy
    && h.states[j].busy[h.steps[j].k] != [] && h.states[j].busy[h.steps[j].k][0] == r
  }

  ghost predicate Logged(s: State, e: Settlement) {
    exists x: nat :: x < |s.log| && s.log[x] == e
  }

  /** Whoever was reached and is settled with its promise still there has its result in the
      log, then and ever after. */
  lemma SettledIsLogged(h: History, j: nat, i: nat, r: Ref)
    requires IsRun(h) && j < i < |h.states| && SettlesAtStep(h, j, r) && !h.steps[j].collected
    ensures r in h.states[j].fate
    ensures h.states[j].fate[r] == Awoken ==> Logged(h.states[i], Settlement(r, Ok))
    ensures h.states[j].fate[r] == Overdue ==> Logged(h.states[i], Settlement(r, TimedOut))
    ensures h.states[j].fate[r] in {Awoken, Overdue, Discarded}
  {
    RunKeeps(h, j);
    assert Takes(h, j);
    SettleExact(h.states[j], h.steps[j].k, false);
    GoesOnward(h, j + 1, i);
    var x := |h.states[j].log|;
    assert h.states[j].fate[r] != Discarded ==>
        h.states[j + 1].log[x] == Due(h.states[j].fate[r], r, false)[0] && h.states[i].log[x] == h.states[j + 1].log[x];
  }

  /** How a step makes an asynchronous waiter disappear. */
  ghost predicate Removes(s: State, step: Step, r: Ref) {
    && r in s.a.info
    && match step
       case Settle(k, _) => k in s.busy && s.busy[k] != [] && s.busy[k][0] == r
       case Deinit(k) => s.a.info[r].isolate == k
       case _ => false
  }

  ghost predicate StillThere(s: State, t: State, r: Ref)
    requires r in s.a.info
  {
    r in t.a.info && t.a.info[r].isAsync == s.a.info[r].isAsync && t.a.info[r].isolate == s.a.info[r].isolate
  }

  lemma LeaveLeaves(s: State, k: Isolate, result: Return, r: Ref)
    requires k in s.sync && r in s.a.info
    ensures StillThere(s, Leave(s, k, result), r)
  {
  }

  lemma LoopLeaves(s: State, k: Isolate, elapsed: bool, r: Ref)
    requires k in s.sync && r in s.a.info
    ensures StillThere(s, WaitLoop(s, k, elapsed), r)
  {
    LeaveLeaves(s, k, ReturnOk, r);
    LeaveLeaves(s, k, ReturnTimedOut, r);
  }

  lemma EnterLeaves(s: State, k: Isolate, l: Location, equal: bool, useTimeout: bool, elapsed: bool, r: Ref)
    requires Inv(s) && k in s.sync && s.sync[k].phase == Idle && r in s.a.info
    ensures StillThere(s, NextWaitSync(s, k, l, equal, useTimeout, elapsed), r)
  {
    IdleNode(s, k);
    if equal {
      LoopLeaves(Entered(s, k, l, useTimeout), k, elapsed, r);
    }
  }

  lemma StaysOrRemoved(s: State, step: Step, r: Ref)
    requires Inv(s) && Enabled(s, step) && r in s.a.info && s.a.info[r].isAsync
    ensures if r in Next(s, step).a.info then StillThere(s, Next(s, step), r) else Removes(s, step, r)
  {
    match step {
      case WaitAsync(_, _, _, _, _) => OpenNode(s, r);
      case WakeUp(l, budget) =>
        KeepsWakeUp(s, l, budget);
        WakeKeepsNode(s, l, budget, r);
      case RunTimeout(x) => TimedNode(s, x);
      case Settle(k, _) => HeldNode(s, k);
      case Deinit(k) => DeinitExact(s, k);
      case WaitSync(k, l, equal, useTimeout, elapsed) => EnterLeaves(s, k, l, equal, useTimeout, elapsed, r);
      case Resume(k, elapsed) => LoopLeaves(s, k, elapsed, r);
      case Handled(k, _, elapsed) =>
        LoopLeaves(s, k, elapsed, r);
        LeaveLeaves(s, k, ReturnException, r);
      case _ =>
    }
  }

  lemma WakeKeepsNode(s: State, l: Location, budget: Budget, r: Ref)
    requires Inv(s) && r in s.a.info
    ensures Known(s.a, QueueAt(s.a, l))
    ensures var b := WakeAt(s.a, l, budget).0;
            r in b.info && b.info[r].isAsync == s.a.info[r].isAsync && b.info[r].isolate == s.a.info[r].isolate
  {
    QueueFacts(s, l);
    WakeIsExact(s.a, l, budget);
    var q := QueueAt(s.a, l);
    if r in q {
      var i :| 0 <= i < |q| && q[i] == r;
      assert NodeAfter(s.a, q, budget, WakeAt(s.a, l, budget).0, i);
    }
  }

  /** An asynchronous waiter that is no longer there was settled by some step, unless its
      isolate was torn down. */
  lemma {:induction false} GoneWasSettled(h: History, a: nat, i: nat, r: Ref) returns (j: nat)
    requires IsRun(h) && a <= i < |h.states| && r in h.states[a].a.info && h.states[a].a.info[r].isAsync
    requires r !in h.states[i].a.info
    ensures a <= j < i && (SettlesAtStep(h, j, r) || h.steps[j] == Deinit(h.states[a].a.info[r].isolate))
    decreases i - a
  {
    RunKeeps(h, a);
    assert Takes(h, a);
    StaysOrRemoved(h.states[a], h.steps[a], r);
    if r in h.states[a + 1].a.info {
      j := GoneWasSettled(h, a + 1, i, r);
    } else {
      j := a;
    }
  }

  /** What an isolate's own thread can do about waiter `r`. */
  ghost predicate CanGoOn(s: State, r: Ref)
    requires r in s.a.info
  {
    var k := s.a.info[r].isolate;
    || (r in s.timers && Enabled(s, RunTimeout(r)))
    || (In(s.a.lists, AtIsolate(k), r) && Enabled(s, RunResolve(k)))
  }

  /** Nobody is stuck: at every moment an isolate is settling, or each of its waiters that is
      still waiting with a timeout can time out, and each that is no longer waiting can be
      resolved. */
  lemma NobodyIsStuck(h: History, i: nat, r: Ref)
    requires IsRun(h) && i < |h.states| && r in h.states[i].a.info && h.states[i].a.info[r].isAsync
    ensures var s, k := h.states[i], h.states[i].a.info[r].isolate;
            && k in s.busy
            && (s.busy[k] != [] ==> forall c: bool :: Enabled(s, Settle(k, c)))
            && (s.busy[k] == [] && (s.a.info[r].hasDeadline || !s.a.info[r].waiting) ==> CanGoOn(s, r))
  {
    var s := h.states[i];
    RunKeeps(h, i);
    OpenQueues(s);
    OpenRest(s);
    assert NodeOk(s, r);
  }

  // Synchronous waits.

  /** The thread `w` of a synchronous waiter after a step of its own, whose node `fate` had
      reached: an unequal value, or an interrupt that throws, is returned at once; a pending
      interrupt is turned to before anything else; then a count is "ok", and only without
      one is an elapsed timeout "timed-out". Otherwise the thread waits. */
  function AfterOwnStep(w: Waiter, step: Step, fate: Fate): Waiter
    requires step.WaitSync? || step.Resume? || step.Handled?
  {
    if step.WaitSync? && !step.equal then
      Waiter(w.node, Idle, w.interrupted, w.useTimeout, Some(ReturnNotEqual))
    else if step.Handled? && step.exception then
      Waiter(w.node, Idle, w.interrupted, w.useTimeout, Some(ReturnException))
    else
      var useTimeout := if step.WaitSync? then step.useTimeout else w.useTimeout;
      if w.interrupted then Waiter(w.node, Handling, false, useTimeout, None)
      else if fate == Awoken && !step.WaitSync? then Waiter(w.node, Idle, false, useTimeout, Some(ReturnOk))
      else if useTimeout && step.elapsed then Waiter(w.node, Idle, false, useTimeout, Some(ReturnTimedOut))
      else Waiter(w.node, Blocked, false, useTimeout, None)
  }

  lemma LoopExact(s: State, k: Isolate, elapsed: bool)
    requires Inv(s) && k in s.sync && s.sync[k].phase != Idle
    ensures var t, w := WaitLoop(s, k, elapsed), s.sync[k];
            && w.node in s.fate && k in t.sync
            && t.sync[k] == AfterOwnStep(w, Resume(k, elapsed), s.fate[w.node])
  {
    ThreadNode(s, k);
  }

  ghost predicate ActsAs(s: State, step: Step, t: State, k: Isolate)
    requires OwnStep(step, k)
  {
    && k in s.sync && k in t.sync && s.sync[k].node in s.fate
    && t.sync[k] == AfterOwnStep(s.sync[k], step, s.fate[s.sync[k].node])
  }

  lemma WaitSyncExact(s: State, k: Isolate, l: Location, equal: bool, useTimeout: bool, elapsed: bool)
    requires Inv(s) && k in s.sync && s.sync[k].phase == Idle
    ensures ActsAs(s, WaitSync(k, l, equal, useTimeout, elapsed), NextWaitSync(s, k, l, equal, useTimeout, elapsed), k)
  {
    ThreadNode(s, k);
    IdleNode(s, k);
    if equal {
      EnteredKeeps(s, k, l, useTimeout);
      LoopExact(Entered(s, k, l, useTimeout), k, elapsed);
    }
  }

  lemma ThrownExact(s: State, k: Isolate, elapsed: bool)
    requires Inv(s) && k in s.sync && s.sync[k].phase != Idle
    ensures ActsAs(s, Handled(k, true, elapsed), Leave(s, k, ReturnException), k)
  {
    ThreadNode(s, k);
  }

  /** Every step of a thread's own does to it exactly that. */
  lemma OwnStepExact(h: History, j: nat, k: Isolate)
    requires IsRun(h) && j < |h.steps| && OwnStep(h.steps[j], k)
    ensures ActsAs(h.states[j], h.steps[j], h.states[j + 1], k)
  {
    var s, step := h.states[j], h.steps[j];
    RunKeeps(h, j);
    assert Takes(h, j);
    match step {
      case WaitSync(_, l, equal, useTimeout, elapsed) => WaitSyncExact(s, k, l, equal, useTimeout, elapsed);
      case Resume(_, elapsed) => LoopExact(s, k, elapsed);
      case Handled(_, exception, elapsed) =>
        if exception {
          ThrownExact(s, k, elapsed);
        } else {
          LoopExact(s, k, elapsed);
        }
    }
  }

  /** So the thread of a waiter that a wake-up counted returns "ok" at its very next step,
      unless an interrupt is pending or throws. */
  lemma CountedReturnsNext(h: History, i: nat, j: nat, k: Isolate)
    requires IsRun(h) && i <= j < |h.steps| && k in h.states[i].sync && h.states[i].sync[k].phase != Idle
    requires var r := h.states[i].sync[k].node; r in h.states[i].fate && h.states[i].fate[r] == Awoken
    requires OwnStep(h.steps[j], k) && forall m :: i <= m < j ==> !OwnStep(h.steps[m], k)
    requires k in h.states[j].sync && !h.states[j].sync[k].interrupted
    requires h.steps[j].Handled? ==> !h.steps[j].exception
    ensures k in h.states[j + 1].sync
    ensures h.states[j + 1].sync[k].phase == Idle && h.states[j + 1].sync[k].result == Some(ReturnOk)
  {
    CountedStays(h, i, j, k);
    StaysInWait(h, i, j, k);
    OwnStepExact(h, j, k);
    assert Takes(h, j);
  }

  lemma {:induction false} StaysInWait(h: History, i: nat, j: nat, k: Isolate)
    requires IsRun(h) && i <= j < |h.states| && k in h.states[i].sync && h.states[i].sync[k].phase != Idle
    requires forall m :: i <= m < j ==> !OwnStep(h.steps[m], k)
    ensures k in h.states[j].sync && h.states[j].sync[k].phase == h.states[i].sync[k].phase
    decreases j
  {
    if i == j {
    } else {
      StaysInWait(h, i, j - 1, k);
      RunKeeps(h, j - 1);
      assert Takes(h, j - 1);
      ThreadsElsewhere(h.states[j - 1], h.steps[j - 1], k);
    }
  }

  // Whoever starts to wait can be woken.

  /** An equal value and a timeout other than zero queue the waiter at its location, last;
      otherwise nothing happens. */
  lemma WaitAsyncExact(s: State, k: Isolate, node: Ref, l: Location, equal: bool, timeout: Option<nat>)
    requires Inv(s) && Enabled(s, WaitAsync(k, node, l, equal, timeout))
    ensures var t := Next(s, WaitAsync(k, node, l, equal, timeout));
            if equal && timeout != Some(0) then
              && QueueAt(t.a, l) == QueueAt(s.a, l) + [node]
              && node in t.a.info && t.a.info[node].waiting && t.a.info[node].isAsync && !t.a.info[node].expired
              && t.a.info[node].isolate == k && (t.a.info[node].hasDeadline <==> timeout.Some?)
              && (node in t.timers <==> timeout.Some?)
              && node in t.fate && t.fate[node] == Queued
            else t == s
  {
    OpenRest(s);
    OpenQueues(s);
    NowhereYet(s, node);
  }

  /** The node at the end of the queue at `l` is woken by a wake-up of everybody there, if
      its memory is still there and nobody before it waits for ever. */
  lemma LastIsWoken(t: State, l: Location, node: Ref)
    requires Inv(t) && QueueAt(t.a, l) != [] && QueueAt(t.a, l)[|QueueAt(t.a, l)| - 1] == node
    requires Ready(t.a.info, node) && node in t.fate && t.fate[node] == Queued
    requires forall i :: 0 <= i < |QueueAt(t.a, l)| - 1 ==> !Stray(t.a.info, QueueAt(t.a, l)[i])
    ensures node in NextWake(t, l, WAKE_ALL).fate && NextWake(t, l, WAKE_ALL).fate[node] == Awoken
  {
    var i := |QueueAt(t.a, l)| - 1;
    WakeReaches(t, l, WAKE_ALL, i);
    assert IsWoken(t.a.info, QueueAt(t.a, l), WAKE_ALL, i);
  }

  /** A wake-up at the location waited on reaches a new asynchronous waiter ... */
  lemma NewWaiterIsWoken(s: State, k: Isolate, node: Ref, l: Location, timeout: Option<nat>)
    requires Inv(s) && Enabled(s, WaitAsync(k, node, l, true, timeout)) && timeout != Some(0)
    requires forall i :: 0 <= i < |QueueAt(s.a, l)| ==> !Stray(s.a.info, QueueAt(s.a, l)[i])
    ensures var u := NextWake(Next(s, WaitAsync(k, node, l, true, timeout)), l, WAKE_ALL);
            node in u.fate && u.fate[node] == Awoken
  {
    var t := Next(s, WaitAsync(k, node, l, true, timeout));
    KeepsStep(s, WaitAsync(k, node, l, true, timeout));
    WaitAsyncExact(s, k, node, l, true, timeout);
    QueueFacts(s, l);
    OpenRest(s);
    LastIsWoken(t, l, node);
  }

  /** ... and a synchronous one, which stays queued while its thread is in its wait. */
  lemma NewSyncWaiterIsWoken(s: State, k: Isolate, l: Location, useTimeout: bool, elapsed: bool)
    requires Inv(s) && Enabled(s, WaitSync(k, l, true, useTimeout, elapsed))
    requires s.sync[k].interrupted || !(useTimeout && elapsed)
    requires forall i :: 0 <= i < |QueueAt(s.a, l)| ==> !Stray(s.a.info, QueueAt(s.a, l)[i])
    ensures var t, r := Next(s, WaitSync(k, l, true, useTimeout, elapsed)), s.sync[k].node;
            && QueueAt(t.a, l) == QueueAt(s.a, l) + [r]
            && r in NextWake(t, l, WAKE_ALL).fate && NextWake(t, l, WAKE_ALL).fate[r] == Awoken
  {
    var step := WaitSync(k, l, true, useTimeout, elapsed);
    var t, r := Next(s, step), s.sync[k].node;
    KeepsStep(s, step);
    IdleNode(s, k);
    ThreadNode(s, k);
    QueueFacts(s, l);
    EnteredQueues(s, k, l, useTimeout);
    assert t.a == Entered(s, k, l, useTimeout).a;
    LastIsWoken(t, l, r);
  }
}
