/** What settling a list of waiters resolves, element by element. */
module FutexSettling {
  import opened FutexMemory
  import opened FutexState

  ghost predicate Rising(pos: seq<nat>) {
    forall x, y :: 0 <= x < y < |pos| ==> pos[x] < pos[y]
  }

  /** `resolved` are the promises of the waiters of `q` at the positions `pos`, in order,
      each with the right outcome: "timed-out" for a waiter that still has its deadline. */
  ghost predicate ResolvedAt(info: map<Ref, Info>, q: seq<Ref>, resolved: seq<Settlement>, pos: seq<nat>) {
    && |resolved| == |pos| && Rising(pos)
    && forall x :: 0 <= x < |pos| ==>
         && pos[x] < |q| && q[pos[x]] in info
         && resolved[x] == Settlement(q[pos[x]], if info[q[pos[x]]].hasDeadline then TimedOut else Ok)
  }

  /** Left out are the waiters to be cleaned up and those whose promise was collected. */
  ghost predicate LeavesOut(info: map<Ref, Info>, q: seq<Ref>, collected: set<Ref>, pos: seq<nat>) {
    forall i: nat :: i < |q| ==> (i in pos <==> q[i] in info && !info[q[i]].cleanupOnly && q[i] !in collected)
  }

  ghost predicate SettlesAt(info: map<Ref, Info>, q: seq<Ref>, collected: set<Ref>, resolved: seq<Settlement>,
                            pos: seq<nat>) {
    ResolvedAt(info, q, resolved, pos) && LeavesOut(info, q, collected, pos)
  }

  /** `resolved` is what settling `q` must resolve. */
  ghost predicate SettlesAs(info: map<Ref, Info>, q: seq<Ref>, collected: set<Ref>, resolved: seq<Settlement>) {
    exists pos: seq<nat> :: SettlesAt(info, q, collected, resolved, pos)
  }

  function Skips(info: map<Ref, Info>, r: Ref, collected: set<Ref>): bool
    requires r in info
  {
    info[r].cleanupOnly || r in collected
  }

  lemma ResolvedNext(info: map<Ref, Info>, s: seq<Ref>, r: Ref, resolved: seq<Settlement>, pos: seq<nat>, e: Settlement)
    requires r in info && ResolvedAt(info, s, resolved, pos)
    requires e == Settlement(r, if info[r].hasDeadline then TimedOut else Ok)
    ensures ResolvedAt(info, s + [r], resolved, pos)
    ensures ResolvedAt(info, s + [r], resolved + [e], pos + [|s|])
  {
    forall x | 0 <= x < |pos|
      ensures (s + [r])[pos[x]] == s[pos[x]]
    {
    }
  }

  lemma LeavesOutNext(info: map<Ref, Info>, s: seq<Ref>, r: Ref, collected: set<Ref>, pos: seq<nat>)
    requires r in info && LeavesOut(info, s, collected, pos) && forall x :: 0 <= x < |pos| ==> pos[x] < |s|
    ensures LeavesOut(info, s + [r], collected, if Skips(info, r, collected) then pos else pos + [|s|])
  {
    var q := s + [r];
    var now := if Skips(info, r, collected) then pos else pos + [|s|];
    forall i: nat | i < |q|
      ensures i in now <==> q[i] in info && !info[q[i]].cleanupOnly && q[i] !in collected
    {
      assert if i < |s| then q[i] == s[i] else q[i] == r;
      assert i in now <==> i in pos || (!Skips(info, r, collected) && i == |s|);
    }
  }

  lemma {:induction false} AllSettle(info: map<Ref, Info>, q: seq<Ref>, collected: set<Ref>) returns (pos: seq<nat>)
    requires forall i :: 0 <= i < |q| ==> q[i] in info
    ensures SettlesAt(info, q, collected, AllSettlements(info, q, collected), pos)
  {
    if q == [] {
      pos := [];
    } else {
      var s, r := q[..|q| - 1], q[|q| - 1];
      var before := AllSettle(info, s, collected);
      pos := if Skips(info, r, collected) then before else before + [|s|];
      assert q == s + [r];
      SettleNext(info, s, r, collected, before);
    }
  }

  lemma SettleNext(info: map<Ref, Info>, s: seq<Ref>, r: Ref, collected: set<Ref>, before: seq<nat>)
    requires r in info && forall i :: 0 <= i < |s| ==> s[i] in info
    requires SettlesAt(info, s, collected, AllSettlements(info, s, collected), before)
    ensures SettlesAt(info, s + [r], collected, AllSettlements(info, s + [r], collected),
                      if Skips(info, r, collected) then before else before + [|s|])
  {
    var was, e := AllSettlements(info, s, collected), Settlement(r, if info[r].hasDeadline then TimedOut else Ok);
    assert (s + [r])[..|s|] == s;
    assert AllSettlements(info, s + [r], collected) == if Skips(info, r, collected) then was else was + [e];
    ResolvedNext(info, s, r, was, before, e);
    LeavesOutNext(info, s, r, collected, before);
  }

  lemma AllSettled(info: map<Ref, Info>, q: seq<Ref>, collected: set<Ref>, resolved: seq<Settlement>)
    requires forall i :: 0 <= i < |q| ==> q[i] in info
    requires resolved == AllSettlements(info, q, collected)
    ensures SettlesAs(info, q, collected, resolved)
  {
    var pos := AllSettle(info, q, collected);
  }
}
