/** The steps of the run system put together: what an isolate's tasks do as a whole is
    what the wait list's methods promise. */
module FutexTasks {
  import opened WaitQueues
  import opened FutexMemory
  import opened FutexState
  import opened FutexSettling
  import opened FutexTeardown
  import opened FutexRuns
  import opened FutexInvariant
  import opened FutexSteps

  /** A timeout task that reaches its waiter first, then settles and deletes it. */
  lemma TimeoutAsOne(s: State, r: Ref, collected: bool)
    requires Inv(s) && Enabled(s, RunTimeout(r))
    ensures r in s.a.info
    ensures !s.a.info[r].waiting ==> NextTimeout(s, r).a == TimeoutAt(s.a, r)
    ensures s.a.info[r].waiting ==>
              var t := NextTimeout(s, r);
              var settle := Settle(s.owner[r], collected);
              && Enabled(t, settle)
              && Next(t, settle).a == TimeoutAt(s.a, r)
              && Next(t, settle).log == s.log + if collected then [] else [Settlement(r, TimedOut)]
  {
    TimedNode(s, r);
  }

  /** The first `j` nodes in the hand of isolate `k` settled. */
  function SettleUpto(s: State, k: Isolate, collected: set<Ref>, j: nat): (t: State)
    requires k in s.busy && j <= |s.busy[k]|
    ensures k in t.busy
  {
    if j == 0 then s else
      var t := SettleUpto(s, k, collected, j - 1);
      if t.busy[k] == [] then t else NextSettle(t, k, t.busy[k][0] in collected)
  }

  function Members(q: seq<Ref>): set<Ref> {
    set r | r in q
  }

  lemma {:induction false} SettlesInOrder(s: State, k: Isolate, collected: set<Ref>, j: nat)
    requires k in s.busy && j <= |s.busy[k]| && Distinct(s.busy[k])
    requires forall i :: 0 <= i < |s.busy[k]| ==> s.busy[k][i] in s.a.info
    ensures var q, t := s.busy[k], SettleUpto(s, k, collected, j);
            && t.busy == s.busy[k := q[j..]]
            && t.a == s.a.(info := s.a.info - Members(q[..j]))
            && t.log == s.log + AllSettlements(s.a.info, q[..j], collected)
    decreases j
  {
    var q := s.busy[k];
    if j == 0 {
      assert q[0..] == q && s.busy[k := q] == s.busy;
      assert s.a.info - Members(q[..0]) == s.a.info;
    } else {
      SettlesInOrder(s, k, collected, j - 1);
      SettlesNext(s, SettleUpto(s, k, collected, j - 1), k, collected, j - 1);
    }
  }

  lemma SettlesNext(s: State, t: State, k: Isolate, collected: set<Ref>, j: nat)
    requires k in s.busy && j < |s.busy[k]| && Distinct(s.busy[k])
    requires forall i :: 0 <= i < |s.busy[k]| ==> s.busy[k][i] in s.a.info
    requires t.busy == s.busy[k := s.busy[k][j..]]
    requires t.a == s.a.(info := s.a.info - Members(s.busy[k][..j]))
    requires t.log == s.log + AllSettlements(s.a.info, s.busy[k][..j], collected)
    ensures k in t.busy && t.busy[k] != []
    ensures var q, u := s.busy[k], NextSettle(t, k, t.busy[k][0] in collected);
            && u.busy == s.busy[k := q[j + 1..]]
            && u.a == s.a.(info := s.a.info - Members(q[..j + 1]))
            && u.log == s.log + AllSettlements(s.a.info, q[..j + 1], collected)
  {
    var q := s.busy[k];
    var r := q[j];
    assert t.busy[k] == q[j..] && q[j..][1..] == q[j + 1..];
    forall i | 0 <= i < j
      ensures q[i] != r
    {
      assert Apart(q, i, j);
    }
    assert q[..j + 1] == q[..j] + [r] && q[..j + 1][..j] == q[..j];
    assert r !in q[..j];
    assert Members(q[..j + 1]) == Members(q[..j]) + {r};
    assert s.a.info - Members(q[..j]) - {r} == s.a.info - Members(q[..j + 1]);
  }

  lemma AllOwned(s: State, k: Isolate)
    requires Inv(s) && AtIsolate(k) in s.a.lists
    ensures var q := s.a.lists[AtIsolate(k)];
            && Distinct(q)
            && (forall i :: 0 <= i < |q| ==> Owned(s.a.info, k, q[i]))
            && Kept(s.a.info, k, q) == [] && OwnedIn(s.a.info, k, q) == Members(q)
  {
    var q := s.a.lists[AtIsolate(k)];
    OpenQueues(s);
    assert FitOn(s.a.info, AtIsolate(k), q);
    KeptNone(s.a.info, k, q);
  }

  lemma {:induction false} KeptNone(info: map<Ref, Info>, k: Isolate, q: seq<Ref>)
    requires forall i :: 0 <= i < |q| ==> Owned(info, k, q[i])
    ensures Kept(info, k, q) == []
  {
    if q == [] {
    } else {
      KeptNone(info, k, q[1..]);
    }
  }

  /** Of the waiters on an isolate's list those are to be resolved that a wake-up counted. */
  lemma ToResolve(s: State, k: Isolate, i: nat)
    requires Inv(s) && AtIsolate(k) in s.a.lists && i < |s.a.lists[AtIsolate(k)]|
    ensures var r := s.a.lists[AtIsolate(k)][i];
            && r in s.a.info && r in s.fate && !s.a.info[r].hasDeadline
            && (s.a.info[r].cleanupOnly <==> s.fate[r] == Discarded)
            && (!s.a.info[r].cleanupOnly <==> s.fate[r] == Awoken)
  {
    var r := s.a.lists[AtIsolate(k)][i];
    AllOwned(s, k);
    assert Owned(s.a.info, k, r);
    OpenNode(s, r);
    assert OnIsolate(s, r);
    ListedOnce(s, k, r);
  }

  lemma ListedOnce(s: State, k: Isolate, r: Ref)
    requires Inv(s) && In(s.a.lists, AtIsolate(k), r)
    ensures r in s.a.info && !s.a.info[r].waiting && s.a.info[r].isAsync
  {
    OpenQueues(s);
    InFits(s.a.info, s.a.lists, AtIsolate(k), r);
  }

  /** What a resolve task adds to the log `was`: in order, the "ok" of the waiters of `q` at
      the positions `pos`, which are those that a wake-up counted and whose promise was not
      collected. */
  ghost predicate AddsOk(fate: map<Ref, Fate>, q: seq<Ref>, collected: set<Ref>, was: seq<Settlement>,
                         log: seq<Settlement>, pos: seq<nat>) {
    && |log| == |was| + |pos| && log[..|was|] == was && Rising(pos)
    && (forall x :: 0 <= x < |pos| ==> pos[x] < |q| && log[|was| + x] == Settlement(q[pos[x]], Ok))
    && (forall i: nat :: i < |q| ==>
         (i in pos <==> q[i] in fate && fate[q[i]] == Awoken && q[i] !in collected))
  }

  /** A resolve task that takes its isolate's list and settles all of it, node by node. */
  lemma ResolveAsOne(s: State, k: Isolate, collected: set<Ref>) returns (pos: seq<nat>)
    requires Inv(s) && Enabled(s, RunResolve(k))
    ensures AtIsolate(k) in s.a.lists
    ensures var q := s.a.lists[AtIsolate(k)];
            var t := NextResolve(s, k);
            && (forall i :: 0 <= i < |q| ==> q[i] in s.a.info)
            && k in t.busy && t.busy[k] == q
            && var u := SettleUpto(t, k, collected, |q|);
            && u.a == SweepOne(s.a.(posted := s.a.posted - multiset{k}), k, AtIsolate(k))
            && AddsOk(s.fate, q, collected, s.log, u.log, pos)
            && u.busy[k] == []
  {
    PendingTask(s, k);
    AllOwned(s, k);
    var q := s.a.lists[AtIsolate(k)];
    SettlesInOrder(NextResolve(s, k), k, collected, |q|);
    assert q[..|q|] == q;
    pos := AllSettle(s.a.info, q, collected);
    AllOk(s, k, collected, pos);
  }

  lemma AllOk(s: State, k: Isolate, collected: set<Ref>, pos: seq<nat>)
    requires Inv(s) && AtIsolate(k) in s.a.lists
    requires forall i :: 0 <= i < |s.a.lists[AtIsolate(k)]| ==> s.a.lists[AtIsolate(k)][i] in s.a.info
    requires var q := s.a.lists[AtIsolate(k)];
             SettlesAt(s.a.info, q, collected, AllSettlements(s.a.info, q, collected), pos)
    ensures var q := s.a.lists[AtIsolate(k)];
            AddsOk(s.fate, q, collected, s.log, s.log + AllSettlements(s.a.info, q, collected), pos)
  {
    var q := s.a.lists[AtIsolate(k)];
    forall i | 0 <= i < |q|
      ensures q[i] in s.fate && !s.a.info[q[i]].hasDeadline
      ensures !s.a.info[q[i]].cleanupOnly <==> s.fate[q[i]] == Awoken
    {
      ToResolve(s, k, i);
    }
  }
}
