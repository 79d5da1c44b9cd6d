/** One wake-up in terms of the nodes' own fields: whom it reaches, what it leaves of them
    and what it counts. */
module FutexWakes {
  import opened WaitQueues
  import opened FutexMemory
  import opened FutexState

  // What a wake-up of `n` at most is to do with queue `q`.

  /** Waiting, on memory that is still there: a synchronous waiter keeps it alive. */
  ghost predicate Ready(info: map<Ref, Info>, r: Ref) {
    r in info && info[r].waiting && (!info[r].isAsync || !info[r].expired)
  }

  /** Waiting for ever: its memory is gone and it has no timeout. */
  ghost predicate Stray(info: map<Ref, Info>, r: Ref) {
    r in info && info[r].waiting && info[r].isAsync && info[r].expired && !info[r].hasDeadline
  }

  ghost function ReadyBefore(info: map<Ref, Info>, q: seq<Ref>, i: nat): set<nat>
    requires i <= |q|
  {
    set j | 0 <= j < i && Ready(info, q[j])
  }

  /** `n` allows for one more than `spent`; its largest value means any number. */
  ghost predicate Allows(n: nat, spent: nat) {
    n == 0xFFFF_FFFF || spent < n
  }

  /** No node that waits for ever stands before `q[i]`, and fewer ready ones than `n`. */
  ghost predicate InReach(info: map<Ref, Info>, q: seq<Ref>, n: nat, i: nat)
    requires i < |q|
  {
    (forall j :: 0 <= j < i ==> !Stray(info, q[j])) && Allows(n, |ReadyBefore(info, q, i)|)
  }

  ghost predicate IsWoken(info: map<Ref, Info>, q: seq<Ref>, n: nat, i: nat)
    requires i < |q|
  {
    Ready(info, q[i]) && InReach(info, q, n, i)
  }

  ghost predicate IsCleaned(info: map<Ref, Info>, q: seq<Ref>, n: nat, i: nat)
    requires i < |q|
  {
    Stray(info, q[i]) && InReach(info, q, n, i)
  }

  ghost function WokenOnes(info: map<Ref, Info>, q: seq<Ref>, n: nat): set<nat> {
    set i | 0 <= i < |q| && IsWoken(info, q, n, i)
  }

  /** Node `q[i]` after the wake-up. Whom it takes off the queue has no deadline any more. */
  ghost predicate NodeAfter(a: Abs, q: seq<Ref>, n: nat, b: Abs, i: nat)
    requires i < |q|
  {
    && q[i] in a.info && q[i] in b.info
    && var was := a.info[q[i]];
    b.info[q[i]] ==
      if IsWoken(a.info, q, n, i) then was.(waiting := false, hasDeadline := was.hasDeadline && !was.isAsync)
      else if IsCleaned(a.info, q, n, i) then was.(waiting := false, hasDeadline := false, cleanupOnly := true)
      else was
  }

  /** A wake-up of at most `n` waiters at `l`, whose count is `woken`, takes `a` to `b`. */
  ghost predicate WakesExactly(a: Abs, l: Location, n: nat, b: Abs, woken: nat) {
    var q := QueueAt(a, l);
    && (forall i :: 0 <= i < |q| ==> NodeAfter(a, q, n, b, i))
    && b.info.Keys == a.info.Keys
    && (forall r :: r in a.info && r !in q ==> b.info[r] == a.info[r])
    && woken == |WokenOnes(a.info, q, n)|
  }

  // The plan in terms of fields.

  lemma KindIs(n: Info)
    ensures KindOf(n) == Wakeable <==> n.waiting && (!n.isAsync || !n.expired)
    ensures KindOf(n) == Stuck <==> n.waiting && n.isAsync && n.expired && !n.hasDeadline
  {
  }

  lemma KindAt(a: Abs, q: seq<Ref>, i: nat)
    requires Known(a, q) && i < |q|
    ensures Kinds(a, q)[i] == Wakeable <==> Ready(a.info, q[i])
    ensures Kinds(a, q)[i] == Stuck <==> Stray(a.info, q[i])
  {
    KindIs(a.info[q[i]]);
  }

  lemma {:induction false} CountUpto(ks: seq<Kind>, i: nat)
    requires i < |ks|
    ensures CountWakeable(ks[..i + 1]) == CountWakeable(ks[..i]) + if ks[i] == Wakeable then 1 else 0
  {
    if i == 0 {
    } else {
      CountUpto(ks[1..], i - 1);
      assert ks[..i + 1][1..] == ks[1..][..i] && ks[..i][1..] == ks[1..][..i - 1];
    }
  }

  lemma {:induction false} CountReady(a: Abs, q: seq<Ref>, i: nat)
    requires Known(a, q) && i <= |q|
    ensures CountWakeable(Kinds(a, q)[..i]) == |ReadyBefore(a.info, q, i)|
  {
    if i == 0 {
    } else {
      CountReady(a, q, i - 1);
      CountUpto(Kinds(a, q), i - 1);
      KindAt(a, q, i - 1);
      var before := ReadyBefore(a.info, q, i - 1);
      assert ReadyBefore(a.info, q, i) == if Ready(a.info, q[i - 1]) then before + {i - 1} else before;
    }
  }

  /** Which nodes the plan wakes and cleans up. */
  lemma PlanIs(a: Abs, q: seq<Ref>, n: Budget, i: nat)
    requires Known(a, q) && i < |q|
    ensures Plan(Kinds(a, q), n)[i] == Action.Wake <==> IsWoken(a.info, q, n, i)
    ensures Plan(Kinds(a, q), n)[i] == Clean <==> IsCleaned(a.info, q, n, i)
  {
    PlanExact(Kinds(a, q), n, i);
    KindAt(a, q, i);
    CountReady(a, q, i);
    forall j | 0 <= j < i
      ensures Kinds(a, q)[..i][j] == Stuck <==> Stray(a.info, q[j])
    {
      KindAt(a, q, j);
    }
  }

  lemma {:induction false} CountIsSize(p: seq<Action>, j: nat)
    requires j <= |p|
    ensures CountWakes(p[..j]) == |set i | 0 <= i < j && p[i] == Action.Wake|
  {
    if j == 0 {
    } else {
      CountIsSize(p, j - 1);
      CountWakesPrefix(p, j - 1);
      var before := set i | 0 <= i < j - 1 && p[i] == Action.Wake;
      var now := set i | 0 <= i < j && p[i] == Action.Wake;
      assert now == if p[j - 1] == Action.Wake then before + {j - 1} else before;
    }
  }

  // The nodes.

  function Acted(n: Info, action: Action): Info {
    match action
    case Keep => n
    case Wake => n.(waiting := false, hasDeadline := n.hasDeadline && !n.isAsync)
    case Clean => n.(waiting := false, hasDeadline := false, cleanupOnly := true)
  }

  lemma ActOn(a: Abs, r: Ref, action: Action, x: Ref)
    requires r in a.info && x in a.info
    ensures Act(a, r, action).info[x] == if x == r then Acted(a.info[r], action) else a.info[x]
  {
  }

  /** Node `x` once the first `j` nodes have been acted on. */
  ghost predicate UptoIs(a: Abs, q: seq<Ref>, p: seq<Action>, j: nat, x: Ref, n: Info)
    requires |q| == |p| && j <= |q| && Known(a, q)
  {
    x in a.info && ActUpto(a, q, p, j).info[x] == n
  }

  lemma UptoNext(a: Abs, q: seq<Ref>, p: seq<Action>, j: nat, x: Ref, n: Info)
    requires |q| == |p| && j < |q| && Known(a, q) && UptoIs(a, q, p, j, x, n)
    ensures UptoIs(a, q, p, j + 1, x, if x == q[j] then Acted(n, p[j]) else n)
  {
    ActOn(ActUpto(a, q, p, j), q[j], p[j], x);
  }

  lemma {:induction false} ActedAt(a: Abs, q: seq<Ref>, p: seq<Action>, j: nat, i: nat)
    requires |q| == |p| && j <= |q| && Known(a, q) && Distinct(q) && i < |q|
    ensures UptoIs(a, q, p, j, q[i], if i < j then Acted(a.info[q[i]], p[i]) else a.info[q[i]])
    decreases j
  {
    if j == 0 {
    } else {
      var m := j - 1;
      ActedAt(a, q, p, m, i);
      assert if i < m then Apart(q, i, m) else i == m || Apart(q, m, i);
      UptoNext(a, q, p, m, q[i], if i < m then Acted(a.info[q[i]], p[i]) else a.info[q[i]]);
    }
  }

  lemma WakeNode(a: Abs, l: Location, n: Budget, i: nat)
    requires Known(a, QueueAt(a, l)) && Distinct(QueueAt(a, l)) && i < |QueueAt(a, l)|
    ensures NodeAfter(a, QueueAt(a, l), n, WakeAt(a, l, n).0, i)
  {
    var q := QueueAt(a, l);
    PlanIs(a, q, n, i);
    var p := Plan(Kinds(a, q), n);
    ActedAt(a, q, p, |q|, i);
    assert UptoIs(a, q, p, |q|, q[i], Acted(a.info[q[i]], p[i]));
  }

  /** One wake-up, exactly: waking is in the order of the queue, a waiter is woken if and
      only if it is waiting, its memory is still there or it is synchronous, no waiter that
      waits for ever stands before it and fewer ready ones than `n` do. The first that waits
      for ever is cleaned up if it is in reach. All other nodes are left alone. */
  lemma WakeIsExact(a: Abs, l: Location, n: Budget)
    requires Known(a, QueueAt(a, l)) && Distinct(QueueAt(a, l))
    ensures WakesExactly(a, l, n, WakeAt(a, l, n).0, WakeAt(a, l, n).1)
  {
    var q := QueueAt(a, l);
    var p := Plan(Kinds(a, q), n);
    forall i | 0 <= i < |q|
      ensures NodeAfter(a, q, n, WakeAt(a, l, n).0, i)
    {
      WakeNode(a, l, n, i);
    }
    forall r | r in a.info && r !in q
      ensures WakeAt(a, l, n).0.info[r] == a.info[r]
    {
      ActUptoOthers(a, q, p, |q|, r);
    }
    WakeCount(a, q, n);
  }

  lemma WakeCount(a: Abs, q: seq<Ref>, n: Budget)
    requires Known(a, q)
    ensures CountWakes(Plan(Kinds(a, q), n)) == |WokenOnes(a.info, q, n)|
  {
    var p := Plan(Kinds(a, q), n);
    CountIsSize(p, |q|);
    assert p[..|q|] == p;
    forall i | 0 <= i < |q|
      ensures p[i] == Action.Wake <==> IsWoken(a.info, q, n, i)
    {
      PlanIs(a, q, n, i);
    }
    assert (set i | 0 <= i < |q| && p[i] == Action.Wake) == WokenOnes(a.info, q, n);
  }

  // Without expired waiters: the oldest ones, as many as asked for.

  ghost predicate NoneExpired(info: map<Ref, Info>, q: seq<Ref>) {
    forall j :: 0 <= j < |q| ==> q[j] in info && (info[q[j]].isAsync ==> !info[q[j]].expired)
  }

  ghost function WaitingBefore(info: map<Ref, Info>, q: seq<Ref>, i: nat): set<nat>
    requires i <= |q|
  {
    set j | 0 <= j < i && q[j] in info && info[q[j]].waiting
  }

  ghost predicate OldestAfter(a: Abs, q: seq<Ref>, n: nat, b: Abs, i: nat)
    requires i < |q|
  {
    && q[i] in a.info && q[i] in b.info
    && var was, stops := a.info[q[i]], Allows(n, |WaitingBefore(a.info, q, i)|);
    b.info[q[i]] ==
      if was.waiting && stops then was.(waiting := false, hasDeadline := was.hasDeadline && !was.isAsync) else was
  }

  /** A wake-up of `n` stops the waiting of exactly the oldest `n` of those still waiting,
      or of all if there are fewer, returns how many these are, and changes nothing else
      about any node but their deadlines. */
  ghost predicate WakesOldest(a: Abs, l: Location, n: nat, b: Abs, woken: nat) {
    var q := QueueAt(a, l);
    && (forall i :: 0 <= i < |q| ==> OldestAfter(a, q, n, b, i))
    && b.info.Keys == a.info.Keys
    && (forall r :: r in a.info && r !in q ==> b.info[r] == a.info[r])
    && var all := |WaitingBefore(a.info, q, |q|)|;
    woken == if Allows(n, all) then all else n
  }

  lemma ReadyIsWaiting(info: map<Ref, Info>, q: seq<Ref>, i: nat)
    requires NoneExpired(info, q) && i <= |q|
    ensures ReadyBefore(info, q, i) == WaitingBefore(info, q, i)
    ensures forall j :: 0 <= j < i ==> !Stray(info, q[j])
  {
  }

  lemma OldestNode(a: Abs, q: seq<Ref>, n: nat, b: Abs, i: nat)
    requires NoneExpired(a.info, q) && i < |q| && NodeAfter(a, q, n, b, i)
    ensures OldestAfter(a, q, n, b, i)
  {
    ReadyIsWaiting(a.info, q, i);
  }

  lemma WakeOldest(a: Abs, l: Location, n: Budget)
    requires Known(a, QueueAt(a, l)) && Distinct(QueueAt(a, l)) && NoneExpired(a.info, QueueAt(a, l))
    ensures WakesOldest(a, l, n, WakeAt(a, l, n).0, WakeAt(a, l, n).1)
  {
    WakeIsExact(a, l, n);
    WakeCountOldest(a, QueueAt(a, l), n);
    OldestOf(a, l, n, WakeAt(a, l, n).0, WakeAt(a, l, n).1);
  }

  lemma OldestOf(a: Abs, l: Location, n: nat, b: Abs, woken: nat)
    requires WakesExactly(a, l, n, b, woken) && NoneExpired(a.info, QueueAt(a, l))
    requires var all := |WaitingBefore(a.info, QueueAt(a, l), |QueueAt(a, l)|)|;
             woken == if Allows(n, all) then all else n
    ensures WakesOldest(a, l, n, b, woken)
  {
    var q := QueueAt(a, l);
    forall i | 0 <= i < |q|
      ensures OldestAfter(a, q, n, b, i)
    {
      OldestNode(a, q, n, b, i);
    }
  }

  /** With nobody waiting for ever, the count is the smaller of the two. */
  lemma WakeCountReady(a: Abs, q: seq<Ref>, n: Budget)
    requires Known(a, q) && forall i :: 0 <= i < |q| ==> !Stray(a.info, q[i])
    ensures var ready := |ReadyBefore(a.info, q, |q|)|;
            CountWakes(Plan(Kinds(a, q), n)) == if Allows(n, ready) then ready else n
  {
    var ks := Kinds(a, q);
    forall i | 0 <= i < |q|
      ensures ks[i] != Stuck
    {
      KindAt(a, q, i);
    }
    PlanCount(ks, n);
    CountReady(a, q, |q|);
    assert ks[..|q|] == ks;
  }

  lemma WakeCountOldest(a: Abs, q: seq<Ref>, n: Budget)
    requires Known(a, q) && NoneExpired(a.info, q)
    ensures var all := |WaitingBefore(a.info, q, |q|)|;
            CountWakes(Plan(Kinds(a, q), n)) == if Allows(n, all) then all else n
  {
    ReadyIsWaiting(a.info, q, |q|);
    WakeCountReady(a, q, n);
  }
}
