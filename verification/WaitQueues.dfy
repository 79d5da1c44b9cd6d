/** The futex wait lists as values: maps from a location or an isolate to a non-empty
    queue, and what one wake-up does to a queue. */
module WaitQueues {

  type Location = nat
  type Isolate = nat

  const WAKE_ALL: nat := 0xFFFF_FFFF

  /** How many waiters to wake, a 32-bit number whose largest value means all. */
  type Budget = n: nat | n <= WAKE_ALL

  ghost predicate Apart<N>(s: seq<N>, i: nat, j: nat)
    requires i < |s| && j < |s|
  {
    s[i] != s[j]
  }

  ghost predicate Distinct<N>(s: seq<N>) {
    forall i, j :: 0 <= i < j < |s| ==> Apart(s, i, j)
  }

  function Without<N(==)>(s: seq<N>, n: N): (r: seq<N>)
    ensures n !in s ==> r == s
  {
    if s == [] then []
    else if s[0] == n then s[1..]
    else [s[0]] + Without(s[1..], n)
  }

  lemma {:induction false} WithoutAt<N>(s: seq<N>, i: nat)
    requires i < |s| && Distinct(s)
    ensures Without(s, s[i]) == s[..i] + s[i + 1..]
  {
    if i == 0 {
    } else {
      var rest := s[1..];
      assert Apart(s, 0, i);
      forall j, k | 0 <= j < k < |rest|
        ensures Apart(rest, j, k)
      {
        assert Apart(s, j + 1, k + 1);
      }
      WithoutAt(rest, i - 1);
      assert rest[i - 1] == s[i];
      assert [s[0]] + (rest[..i - 1] + rest[i..]) == s[..i] + s[i + 1..];
    }
  }

  function Enqueue<K, N>(q: map<K, seq<N>>, k: K, n: N): map<K, seq<N>> {
    q[k := (if k in q then q[k] else []) + [n]]
  }

  /** Queues are never empty: setting one to the empty sequence drops its key. */
  function SetQueue<K, N>(q: map<K, seq<N>>, k: K, s: seq<N>): map<K, seq<N>> {
    if s == [] then q - {k} else q[k := s]
  }

  function Dequeue<K, N(==)>(q: map<K, seq<N>>, k: K, n: N): map<K, seq<N>>
    requires k in q
  {
    SetQueue(q, k, Without(q[k], n))
  }

  // One wake-up, node by node in queue order.

  /** How a queued node looks to a wake-up. */
  datatype Kind =
    | Woken     // no longer waiting, not yet unlinked
    | Wakeable  // waiting, backing store alive
    | Lapsed    // waiting, backing store gone, a timeout will clean it up
    | Stuck     // waiting, backing store gone, no timeout

  datatype Action = Keep | Wake | Clean

  function Spend(budget: Budget): Budget
    requires budget > 0
  {
    if budget == WAKE_ALL then budget else budget - 1
  }

  /** What the traversal does to each node. After moving a stuck node away it has lost
      its place and ends. */
  function Plan(ks: seq<Kind>, budget: Budget): (p: seq<Action>)
    ensures |p| == |ks|
    decreases |ks|
  {
    if ks == [] then []
    else if budget == 0 then [Keep] + Plan(ks[1..], 0)
    else match ks[0]
      case Woken => [Keep] + Plan(ks[1..], budget)
      case Lapsed => [Keep] + Plan(ks[1..], budget)
      case Wakeable => [Wake] + Plan(ks[1..], Spend(budget))
      case Stuck => [Clean] + Plan(ks[1..], 0)
  }

  function CountWakes(p: seq<Action>): nat {
    if p == [] then 0 else (if p[0] == Wake then 1 else 0) + CountWakes(p[1..])
  }

  function CountWakeable(ks: seq<Kind>): nat {
    if ks == [] then 0 else (if ks[0] == Wakeable then 1 else 0) + CountWakeable(ks[1..])
  }

  predicate Affords(budget: Budget, spent: nat) {
    budget == WAKE_ALL || spent < budget
  }

  /** FIFO, exactly: a node is woken when it is wakeable, no stuck node stands before
      it, and fewer wakeable nodes than the budget do. The first stuck node reached
      within the budget is cleaned up, no other. */
  lemma {:induction false} PlanExact(ks: seq<Kind>, budget: Budget, i: nat)
    requires i < |ks|
    ensures Plan(ks, budget)[i] == Wake <==>
            ks[i] == Wakeable && Stuck !in ks[..i] && Affords(budget, CountWakeable(ks[..i]))
    ensures Plan(ks, budget)[i] == Clean <==>
            ks[i] == Stuck && Stuck !in ks[..i] && Affords(budget, CountWakeable(ks[..i]))
    decreases |ks|
  {
    if i == 0 {
    } else {
      var rest := ks[1..];
      assert ks[..i][1..] == rest[..i - 1];
      assert ks[..i] == [ks[0]] + rest[..i - 1];
      if budget == 0 || ks[0] == Stuck {
        PlanExact(rest, 0, i - 1);
      } else if ks[0] == Wakeable {
        PlanExact(rest, Spend(budget), i - 1);
      } else {
        PlanExact(rest, budget, i - 1);
      }
    }
  }

  /** With no stuck node, the count returned is min(budget, wakeable nodes). */
  lemma {:induction false} PlanCount(ks: seq<Kind>, budget: Budget)
    requires Stuck !in ks
    ensures CountWakes(Plan(ks, budget)) ==
            if Affords(budget, CountWakeable(ks)) then CountWakeable(ks) else budget
    decreases |ks|
  {
    if ks == [] {
    } else {
      var b := if budget > 0 && ks[0] == Wakeable then Spend(budget) else budget;
      PlanCount(ks[1..], b);
      assert Plan(ks, budget)[1..] == Plan(ks[1..], b);
    }
  }

  lemma {:induction false} PlanSpent(ks: seq<Kind>, i: nat)
    requires i < |ks|
    ensures Plan(ks, 0)[i] == Keep
    decreases |ks|
  {
    if i == 0 {
    } else {
      PlanSpent(ks[1..], i - 1);
    }
  }

  lemma {:induction false} CountWakesPrefix(p: seq<Action>, j: nat)
    requires j < |p|
    ensures CountWakes(p[..j + 1]) == CountWakes(p[..j]) + (if p[j] == Wake then 1 else 0)
  {
    if j == 0 {
    } else {
      CountWakesPrefix(p[1..], j - 1);
      assert p[..j + 1][1..] == p[1..][..j];
      assert p[..j][1..] == p[1..][..j - 1];
    }
  }

  /** What the plan does at `j` and what is left of it. */
  lemma PlanHead(ks: seq<Kind>, p: seq<Action>, j: nat, budget: Budget)
    requires j < |ks| == |p| && p[j..] == Plan(ks[j..], budget) && budget > 0
    ensures match ks[j]
            case Wakeable => p[j] == Wake && p[j + 1..] == Plan(ks[j + 1..], Spend(budget))
            case Stuck => p[j] == Clean && p[j + 1..] == Plan(ks[j + 1..], 0)
            case _ => p[j] == Keep && p[j + 1..] == Plan(ks[j + 1..], budget)
  {
    assert p[j..][0] == p[j] && p[j..][1..] == p[j + 1..];
    assert ks[j..][0] == ks[j] && ks[j..][1..] == ks[j + 1..];
  }

  /** From a node on, a plan with nothing left to spend keeps everything. */
  lemma PlanIdle(ks: seq<Kind>, p: seq<Action>, j: nat)
    requires j <= |p| && p[j..] == Plan(ks, 0)
    ensures forall i :: j <= i < |p| ==> p[i] == Keep
    ensures CountWakes(p) == CountWakes(p[..j])
  {
    forall i | j <= i < |p|
      ensures p[i] == Keep
    {
      PlanSpent(ks, i - j);
      assert p[i] == p[j..][i - j];
    }
    CountWakesKeeps(p, j);
  }

  lemma {:induction false} CountWakesKeeps(p: seq<Action>, j: nat)
    requires j <= |p| && forall i :: j <= i < |p| ==> p[i] == Keep
    ensures CountWakes(p) == CountWakes(p[..j])
    decreases |p| - j
  {
    if j < |p| {
      CountWakesKeeps(p, j + 1);
      CountWakesPrefix(p, j);
    } else {
      assert p[..j] == p;
    }
  }

  /** Nodes that leave the queue for their isolate's resolve list. Synchronous waiters
      stay and unlink themselves. */
  predicate Moves(a: Action, isAsync: bool) {
    a == Clean || (a == Wake && isAsync)
  }
}
