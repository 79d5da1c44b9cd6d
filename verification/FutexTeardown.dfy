/** Deleting nodes out of a list whose stored head and tail are brought up to date only
    afterwards. */
module FutexTeardown {
  import opened WaitQueues
  import opened FutexMemory
  import opened FutexState

  function EndsFor(t: seq<Ref>): Ends {
    if t == [] then NoList else Ends(HeadAndTail(t[0], t[|t| - 1]))
  }

  /** The memory once list `h` is stored as `t`. */
  function Mend(m: Memory, h: Home, t: seq<Ref>): Memory {
    var locations, isolates := m.links.locationLists, m.links.isolatePromises;
    Memory(
      m.links.(locationLists := if h.AtLocation? then SetEnds(locations, h.location, EndsFor(t)) else locations,
               isolatePromises := if h.AtIsolate? then SetEnds(isolates, h.isolate, EndsFor(t)) else isolates),
      m.view.(lists := SetQueue(m.view.lists, h, t)))
  }

  /** Storing the ends of `t` is all that is missing. */
  ghost predicate Mendable(m: Memory, info: map<Ref, Info>, h: Home, t: seq<Ref>) {
    Mend(m, h, t).Ok() && AllFit(info, SetQueue(m.view.lists, h, t)) && m.links.prev.Keys == info.Keys
  }

  ghost predicate SameLists(a: Memory, b: Memory) {
    b.links.locationLists == a.links.locationLists && b.links.isolatePromises == a.links.isolatePromises
        && b.view.lists == a.view.lists
  }

  /** `b` is `a` with `node` deleted: its neighbours linked to each other, its fields
      gone. */
  ghost predicate DeleteLinks(a: Memory, b: Memory, node: Ref)
    requires node in a.links.prev && node in a.links.next
  {
    var p, n := a.links.prev[node], a.links.next[node];
    && b.links.prev == (if n == NULL then a.links.prev else a.links.prev[n := p]) - {node}
    && b.links.next == (if p == NULL then a.links.next else a.links.next[p := n]) - {node}
    && b.view.key == a.view.key - {node} && b.view.resolving == a.view.resolving
    && SameLists(a, b)
  }

  lemma MendOpen(m: Memory, info: map<Ref, Info>, h: Home, t: seq<Ref>, i: nat)
    requires Mendable(m, info, h, t) && i < |t|
    ensures Mend(m, h, t).ListOk(h, t)
    ensures var r := t[i];
            && r != NULL && r in info && Fits(h, info[r]) && r in m.links.prev && r in m.links.next
            && m.links.prev[r] == Before(t, i) && m.links.next[r] == After(t, i)
            && (m.links.prev[r] != NULL ==> m.links.prev[r] in m.links.next && m.links.prev[r] != r)
            && (m.links.next[r] != NULL ==> m.links.next[r] in m.links.prev && m.links.next[r] != r)
  {
    var a := Mend(m, h, t);
    assert a.view.lists[h] == t;
    assert a.ListOk(h, t);
    assert FitOn(info, h, t);
    Unlinkable(a, h, t, i);
  }

  /** The mended memory once `t[i]` is unlinked, but not yet gone. */
  function Unhooked(m: Memory, h: Home, t: seq<Ref>, i: nat): Memory
    requires i < |t|
  {
    var a := Mend(m, h, Splice(t, i));
    Memory(a.links.(prev := PrevWithout(m.links.prev, Before(t, i), t[i], After(t, i)),
                    next := NextWithout(m.links.next, Before(t, i), t[i], After(t, i))),
           a.view.(key := m.view.key - {t[i]}))
  }

  lemma UnhookedSteps(m: Memory, h: Home, t: seq<Ref>, i: nat)
    requires i < |t| && t[i] in m.links.prev && t[i] in m.links.next
    requires m.links.prev[t[i]] == Before(t, i) && m.links.next[t[i]] == After(t, i)
    requires Mend(m, h, t).EndsOf(h).Ends?
    requires EndsWithout(Mend(m, h, t).EndsOf(h).ht, Before(t, i), After(t, i)) == EndsFor(Splice(t, i))
    ensures UnlinkStep(Mend(m, h, t), Unhooked(m, h, t, i), h, t[i])
  {
    var a, b := Mend(m, h, t), Unhooked(m, h, t, i);
    assert b.SetsEnds(a, h, EndsFor(Splice(t, i)));
  }

  lemma UnhookedLists(m: Memory, h: Home, t: seq<Ref>, i: nat)
    requires i < |t|
    ensures h in Mend(m, h, t).view.lists && Mend(m, h, t).view.lists[h] == t
    ensures Unhooked(m, h, t, i).view.lists == SetQueue(Mend(m, h, t).view.lists, h, Splice(t, i))
  {
  }

  lemma UnhookedOk(m: Memory, info: map<Ref, Info>, h: Home, t: seq<Ref>, i: nat)
    requires Mendable(m, info, h, t) && i < |t|
    ensures Unhooked(m, h, t, i).Ok() && Unhooked(m, h, t, i).Unlinked(t[i])
  {
    var a, b := Mend(m, h, t), Unhooked(m, h, t, i);
    MendOpen(m, info, h, t, i);
    UnlinkedEnds(a, h, t, i);
    UnhookedSteps(m, h, t, i);
    UnhookedLists(m, h, t, i);
    Removed(a, b, h, t, i);
  }

  /** A node on no list can go. */
  lemma GoneOk(a: Memory, b: Memory, r: Ref)
    requires a.Ok() && a.Unlinked(r)
    requires b.links == a.links.(prev := a.links.prev - {r}, next := a.links.next - {r}) && b.view == a.view
    ensures b.Ok()
  {
    forall h | h in b.view.lists
      ensures b.ListOk(h, b.view.lists[h])
    {
      assert a.ListOk(h, a.view.lists[h]);
      GoneList(a, b, r, h, a.view.lists[h]);
    }
    forall h | h !in b.view.lists
      ensures b.EndsOf(h) == NoList
    {
      assert a.EndsOf(h) == NoList;
    }
  }

  lemma GoneList(a: Memory, b: Memory, r: Ref, h: Home, s: seq<Ref>)
    requires a.ListOk(h, s) && a.Unlinked(r)
    requires b.links == a.links.(prev := a.links.prev - {r}, next := a.links.next - {r}) && b.view == a.view
    ensures b.ListOk(h, s)
  {
    forall i | 0 <= i < |s|
      ensures SameNode(a, b, s[i])
    {
      assert a.Homed(s[i], h);
    }
    ListKept(a, b, h, s);
  }

  lemma DeletedFits(info: map<Ref, Info>, lists: map<Home, seq<Ref>>, h: Home, t: seq<Ref>, i: nat, m: Memory)
    requires AllFit(info, SetQueue(lists, h, t)) && i < |t| && Distinct(t)
    requires m.Ok() && m.view.lists == SetQueue(lists, h, Splice(t, i)) && t[i] !in m.view.key
    ensures AllFit(info - {t[i]}, SetQueue(lists, h, Splice(t, i)))
  {
    var now := SetQueue(lists, h, Splice(t, i));
    forall g | g in now
      ensures FitOn(info - {t[i]}, g, now[g])
    {
      assert FitOn(info, g, SetQueue(lists, h, t)[g]);
      assert m.ListOk(g, now[g]);
      forall j | 0 <= j < |now[g]|
        ensures now[g][j] in info - {t[i]} && Fits(g, info[now[g][j]])
      {
        assert m.Homed(now[g][j], g);
        if g == h {
          SpliceAt(t, i, j);
        }
      }
    }
  }

  lemma UnlinkedFits(m: Memory, info: map<Ref, Info>, r: Ref)
    requires m.Ok() && AllFit(info, m.view.lists) && m.Unlinked(r)
    ensures AllFit(info - {r}, m.view.lists)
  {
    forall h | h in m.view.lists
      ensures FitOn(info - {r}, h, m.view.lists[h])
    {
      assert FitOn(info, h, m.view.lists[h]) && m.ListOk(h, m.view.lists[h]);
      assert forall i :: 0 <= i < |m.view.lists[h]| ==> m.Homed(m.view.lists[h][i], h);
    }
  }

  /** One deletion. */
  lemma Deleted(m: Memory, n: Memory, info: map<Ref, Info>, h: Home, t: seq<Ref>, i: nat)
    requires Mendable(m, info, h, t) && i < |t|
    requires t[i] in m.links.prev && t[i] in m.links.next && DeleteLinks(m, n, t[i])
    ensures Mendable(n, info - {t[i]}, h, Splice(t, i))
  {
    var b := Unhooked(m, h, t, i);
    MendOpen(m, info, h, t, i);
    UnhookedOk(m, info, h, t, i);
    var c := Mend(n, h, Splice(t, i));
    DeletedIsGone(m, n, h, t, i);
    GoneOk(b, c, t[i]);
    DeletedFits(info, m.view.lists, h, t, i, c);
  }

  lemma DeletedIsGone(m: Memory, n: Memory, h: Home, t: seq<Ref>, i: nat)
    requires i < |t| && t[i] in m.links.prev && t[i] in m.links.next && DeleteLinks(m, n, t[i])
    requires m.links.prev[t[i]] == Before(t, i) && m.links.next[t[i]] == After(t, i)
    ensures var b, c := Unhooked(m, h, t, i), Mend(n, h, Splice(t, i));
            c.links == b.links.(prev := b.links.prev - {t[i]}, next := b.links.next - {t[i]}) && c.view == b.view
  {
    var b, c := Unhooked(m, h, t, i), Mend(n, h, Splice(t, i));
    assert c.links.prev == b.links.prev - {t[i]};
    assert c.links.next == b.links.next - {t[i]};
  }

  /** A consistent list needs no mending, and a mended one is consistent. */
  lemma NothingToMend(m: Memory, h: Home)
    requires m.Ok() && h in m.view.lists
    ensures Mend(m, h, m.view.lists[h]) == m && SetQueue(m.view.lists, h, m.view.lists[h]) == m.view.lists
  {
    assert m.ListOk(h, m.view.lists[h]);
  }

  // A sweep along one list.

  function First(t: seq<Ref>): Ref {
    if t == [] then NULL else t[0]
  }

  function Last(t: seq<Ref>): Ref {
    if t == [] then NULL else t[|t| - 1]
  }

  function OwnedIn(info: map<Ref, Info>, k: Isolate, s: seq<Ref>): set<Ref> {
    set r | r in s && Owned(info, k, r)
  }

  /** Isolate `k` swept from list `h`. */
  function SweepOne(a: Abs, k: Isolate, h: Home): Abs
    requires h in a.lists
  {
    Abs(a.info - OwnedIn(a.info, k, a.lists[h]), SetQueue(a.lists, h, Kept(a.info, k, a.lists[h])), a.posted)
  }

  /** The sweep of list `h`, which was `q`, has reached node number `j`. */
  ghost predicate Sweeping(m: Memory, info: map<Ref, Info>, was: map<Ref, Info>, h: Home, k: Isolate, q: seq<Ref>,
                           j: nat) {
    && j <= |q|
    && Mendable(m, info, h, Kept(was, k, q[..j]) + q[j..])
    && info == was - OwnedIn(was, k, q[..j])
  }

  lemma {:induction false} KeptNext(info: map<Ref, Info>, k: Isolate, s: seq<Ref>, r: Ref)
    ensures Kept(info, k, s + [r]) == Kept(info, k, s) + if Owned(info, k, r) then [] else [r]
  {
    if s == [] {
      assert s + [r] == [r];
    } else {
      assert (s + [r])[1..] == s[1..] + [r];
      KeptNext(info, k, s[1..], r);
    }
  }

  lemma SweepStart(m: Memory, info: map<Ref, Info>, h: Home, k: Isolate)
    requires m.Ok() && AllFit(info, m.view.lists) && m.links.prev.Keys == info.Keys && h in m.view.lists
    ensures Sweeping(m, info, info, h, k, m.view.lists[h], 0)
    ensures m.view.lists[h] != [] && m.EndsOf(h) == Ends(HeadAndTail(m.view.lists[h][0], Last(m.view.lists[h])))
  {
    var q := m.view.lists[h];
    NothingToMend(m, h);
    assert m.ListOk(h, q);
    assert Kept(info, k, q[..0]) + q[0..] == q;
  }

  /** The node a sweep stands on, whose successor is the next one of `q`. */
  lemma SweepHere(m: Memory, info: map<Ref, Info>, was: map<Ref, Info>, h: Home, k: Isolate, q: seq<Ref>, j: nat)
    requires Sweeping(m, info, was, h, k, q, j) && j < |q|
    ensures var r := q[j];
            && r != NULL && r in info && r in was && was[r] == info[r] && Fits(h, info[r])
            && r in m.links.prev && r in m.links.next
            && m.links.next[r] == (if j + 1 < |q| then q[j + 1] else NULL)
            && (m.links.prev[r] != NULL ==> m.links.prev[r] in m.links.next && m.links.prev[r] != r)
            && (m.links.next[r] != NULL ==> m.links.next[r] in m.links.prev && m.links.next[r] != r)
  {
    var pre := Kept(was, k, q[..j]);
    MendOpen(m, info, h, pre + q[j..], |pre|);
  }

  lemma SweepPast(m: Memory, info: map<Ref, Info>, was: map<Ref, Info>, h: Home, k: Isolate, q: seq<Ref>, j: nat)
    requires Sweeping(m, info, was, h, k, q, j) && j < |q| && !Owned(was, k, q[j])
    ensures Sweeping(m, info, was, h, k, q, j + 1)
    ensures Kept(was, k, q[..j + 1]) == Kept(was, k, q[..j]) + [q[j]]
  {
    KeptNext(was, k, q[..j], q[j]);
    assert q[..j] + [q[j]] == q[..j + 1];
    assert Kept(was, k, q[..j + 1]) + q[j + 1..] == Kept(was, k, q[..j]) + q[j..];
    assert OwnedIn(was, k, q[..j + 1]) == OwnedIn(was, k, q[..j]);
  }

  lemma SweepAway(m: Memory, n: Memory, info: map<Ref, Info>, was: map<Ref, Info>, h: Home, k: Isolate, q: seq<Ref>,
                  j: nat)
    requires Sweeping(m, info, was, h, k, q, j) && j < |q| && Owned(was, k, q[j])
    requires q[j] in m.links.prev && q[j] in m.links.next && DeleteLinks(m, n, q[j])
    ensures Sweeping(n, info - {q[j]}, was, h, k, q, j + 1)
    ensures Kept(was, k, q[..j + 1]) == Kept(was, k, q[..j])
  {
    var pre := Kept(was, k, q[..j]);
    var t := pre + q[j..];
    assert t[|pre|] == q[j];
    Deleted(m, n, info, h, t, |pre|);
    KeptNext(was, k, q[..j], q[j]);
    assert q[..j] + [q[j]] == q[..j + 1];
    assert Splice(t, |pre|) == Kept(was, k, q[..j + 1]) + q[j + 1..];
    assert OwnedIn(was, k, q[..j + 1]) == OwnedIn(was, k, q[..j]) + {q[j]};
  }

  /** At the end only the ends are left to store. */
  lemma SweepEnd(m: Memory, info: map<Ref, Info>, was: map<Ref, Info>, h: Home, k: Isolate, q: seq<Ref>)
    requires Sweeping(m, info, was, h, k, q, |q|)
    ensures Mendable(m, info, h, Kept(was, k, q)) && info == was - OwnedIn(was, k, q)
  {
    assert q[..|q|] == q && Kept(was, k, q) + q[|q|..] == Kept(was, k, q);
  }

  /** A sweep and the variables of its loop. */
  ghost predicate SweepAt(m: Memory, info: map<Ref, Info>, was: map<Ref, Info>, h: Home, k: Isolate, q: seq<Ref>,
                          j: nat,
                          node: Ref, head: Ref, tail: Ref) {
    && Sweeping(m, info, was, h, k, q, j)
    && node == (if j < |q| then q[j] else NULL)
    && head == First(Kept(was, k, q[..j])) && tail == Last(Kept(was, k, q[..j]))
  }

  lemma KeptNotNull(m: Memory, info: map<Ref, Info>, was: map<Ref, Info>, h: Home, k: Isolate, q: seq<Ref>, j: nat)
    requires Sweeping(m, info, was, h, k, q, j)
    ensures First(Kept(was, k, q[..j])) == NULL <==> Kept(was, k, q[..j]) == []
  {
    var pre := Kept(was, k, q[..j]);
    if pre != [] {
      MendOpen(m, info, h, pre + q[j..], 0);
    }
  }

  lemma SweepKeeps(m: Memory, info: map<Ref, Info>, was: map<Ref, Info>, h: Home, k: Isolate, q: seq<Ref>, j: nat,
                   node: Ref, head: Ref, tail: Ref)
    requires SweepAt(m, info, was, h, k, q, j, node, head, tail) && node != NULL && !Owned(was, k, node)
    ensures node in m.links.next
    ensures SweepAt(m, info, was, h, k, q, j + 1, m.links.next[node], if head == NULL then node else head, node)
  {
    SweepHere(m, info, was, h, k, q, j);
    SweepPast(m, info, was, h, k, q, j);
    KeptNotNull(m, info, was, h, k, q, j);
  }

  lemma SweepDeletes(m: Memory, n: Memory, info: map<Ref, Info>, was: map<Ref, Info>, h: Home, k: Isolate,
                     q: seq<Ref>, j: nat,
                     node: Ref, head: Ref, tail: Ref)
    requires SweepAt(m, info, was, h, k, q, j, node, head, tail) && node != NULL && Owned(was, k, node)
    requires node in m.links.prev && node in m.links.next && DeleteLinks(m, n, node)
    ensures SweepAt(n, info - {node}, was, h, k, q, j + 1, m.links.next[node], head, tail)
  {
    SweepHere(m, info, was, h, k, q, j);
    SweepAway(m, n, info, was, h, k, q, j);
  }

  /** What the loop's end leaves to be stored: both ends, or nothing. */
  lemma SweepDone(m: Memory, info: map<Ref, Info>, was: map<Ref, Info>, h: Home, k: Isolate, q: seq<Ref>, j: nat,
                  head: Ref, tail: Ref)
    requires SweepAt(m, info, was, h, k, q, j, NULL, head, tail)
    ensures Mendable(m, info, h, Kept(was, k, q)) && info == was - OwnedIn(was, k, q)
    ensures EndsFor(Kept(was, k, q)) == if head == NULL then NoList else Ends(HeadAndTail(head, tail))
  {
    if j < |q| {
      SweepHere(m, info, was, h, k, q, j);
    }
    KeptNotNull(m, info, was, h, k, q, j);
    SweepEnd(m, info, was, h, k, q);
    assert q[..|q|] == q;
  }

  /** Once the ends are stored, the isolate is swept from the list. */
  lemma SweepStored(m: Memory, info: map<Ref, Info>, was: map<Ref, Info>, h: Home, k: Isolate, q: seq<Ref>,
                    posted: multiset<Isolate>)
    requires Mendable(m, info, h, Kept(was, k, q)) && info == was - OwnedIn(was, k, q)
    requires h in m.view.lists && m.view.lists[h] == q
    ensures var n := Mend(m, h, Kept(was, k, q));
            && n.Ok() && AllFit(info, n.view.lists) && n.links.prev.Keys == info.Keys
            && Abs(info, n.view.lists, posted) == SweepOne(Abs(was, m.view.lists, posted), k, h)
  {
  }

  // A sweep along several lists.

  ghost predicate Separate(lists: map<Home, seq<Ref>>) {
    forall g, h, r :: In(lists, g, r) && In(lists, h, r) ==> g == h
  }

  lemma OkSeparate(m: Memory)
    requires m.Ok()
    ensures Separate(m.view.lists)
  {
    forall g, h, r | In(m.view.lists, g, r) && In(m.view.lists, h, r)
      ensures g == h
    {
      assert m.ListOk(g, m.view.lists[g]) && m.ListOk(h, m.view.lists[h]);
      assert m.Homed(r, g) && m.Homed(r, h);
    }
  }

  lemma {:induction false} KeptSame(info: map<Ref, Info>, now: map<Ref, Info>, k: Isolate, s: seq<Ref>)
    requires forall r :: r in s ==> (Owned(info, k, r) <==> Owned(now, k, r))
    ensures Kept(info, k, s) == Kept(now, k, s)
  {
    if s == [] {
    } else {
      KeptSame(info, now, k, s[1..]);
    }
  }

  lemma SweepNext(a: Abs, k: Isolate, done: set<Home>, h: Home)
    requires AllFit(a.info, a.lists) && Separate(a.lists) && h in a.lists && h !in done
    requires h.AtLocation? || h == AtIsolate(k)
    ensures h in Swept(a, k, done).lists
    ensures SweepOne(Swept(a, k, done), k, h) == Swept(a, k, done + {h})
  {
    SweepNextKept(a, k, done, h);
    SweepNextInfo(a, k, done, h);
    SweepNextLists(a, k, done, h);
  }

  lemma SweepNextKept(a: Abs, k: Isolate, done: set<Home>, h: Home)
    requires AllFit(a.info, a.lists) && Separate(a.lists) && h in a.lists && h !in done
    requires h.AtLocation? || h == AtIsolate(k)
    ensures Kept(Swept(a, k, done).info, k, a.lists[h]) == Kept(a.info, k, a.lists[h])
  {
    var b := Swept(a, k, done);
    forall r | r in a.lists[h]
      ensures Owned(a.info, k, r) <==> Owned(b.info, k, r)
    {
      assert FitOn(a.info, h, a.lists[h]);
      assert In(a.lists, h, r);
    }
    KeptSame(a.info, b.info, k, a.lists[h]);
  }

  lemma SweepNextLists(a: Abs, k: Isolate, done: set<Home>, h: Home)
    requires h in a.lists && h !in done
    ensures SetQueue(Swept(a, k, done).lists, h, Kept(a.info, k, a.lists[h])) == Swept(a, k, done + {h}).lists
  {
  }

  lemma SweepNextInfo(a: Abs, k: Isolate, done: set<Home>, h: Home)
    requires AllFit(a.info, a.lists) && h in a.lists && h !in done
    requires h.AtLocation? || h == AtIsolate(k)
    ensures Swept(a, k, done).info - OwnedIn(Swept(a, k, done).info, k, a.lists[h]) == Swept(a, k, done + {h}).info
  {
    var b := Swept(a, k, done);
    assert FitOn(a.info, h, a.lists[h]);
    forall r | r in a.info && Owned(a.info, k, r)
      ensures Listed(a, done + {h}, r) <==> Listed(a, done, r) || r in a.lists[h]
    {
    }
  }

  lemma SweptNone(a: Abs, k: Isolate)
    ensures Swept(a, k, {}) == a
  {
    assert Evicted(a, k, {}) == {};
  }

  /** The teardown of isolate `k` has swept the lists `done`; `todo` are left. */
  ghost predicate SweepsLeft(a: Abs, done: set<Home>, todo: set<Location>) {
    && (forall h :: h in done ==> h.AtLocation? && h in a.lists && h.location !in todo)
    && (forall l :: l in todo ==> AtLocation(l) in a.lists)
    && (forall h :: h in a.lists && h.AtLocation? ==> h in done || h.location in todo)
  }

  /** All locations and the isolate's own list make the whole sweep. */
  lemma SweepsDone(a: Abs, k: Isolate, done: set<Home>)
    requires SweepsLeft(a, done, {})
    ensures AtIsolate(k) !in done
    ensures (if AtIsolate(k) in a.lists then done + {AtIsolate(k)} else done) == SweepOf(a, k)
  {
  }

  // Draining an isolate's own list, all of whose nodes are its own.

  lemma DrainStart(m: Memory, n: Memory, info: map<Ref, Info>, k: Isolate)
    requires m.Ok() && AllFit(info, m.view.lists) && m.links.prev.Keys == info.Keys && AtIsolate(k) in m.view.lists
    requires n == Memory(m.links.(isolatePromises := n.links.isolatePromises), m.view)
    requires n.links.isolatePromises == m.links.isolatePromises
               || n.links.isolatePromises == m.links.isolatePromises - {k}
    ensures var q := m.view.lists[AtIsolate(k)];
            && q != [] && m.EndsOf(AtIsolate(k)) == Ends(HeadAndTail(q[0], Last(q)))
            && SweepAt(n, info, info, AtIsolate(k), k, q, 0, q[0], NULL, NULL)
            && forall i :: 0 <= i < |q| ==> Owned(info, k, q[i])
  {
    var h := AtIsolate(k);
    var q := m.view.lists[h];
    SweepStart(m, info, h, k);
    assert Mend(n, h, q) == Mend(m, h, q);
    assert FitOn(info, h, q);
    assert Kept(info, k, q[..0]) + q[0..] == q;
  }

  lemma DrainDone(m: Memory, info: map<Ref, Info>, was: map<Ref, Info>, k: Isolate, q: seq<Ref>, j: nat)
    requires SweepAt(m, info, was, AtIsolate(k), k, q, j, NULL, NULL, NULL)
    ensures Mendable(m, info, AtIsolate(k), []) && info == was - OwnedIn(was, k, q) && Kept(was, k, q) == [] && j == |q|
  {
    SweepDone(m, info, was, AtIsolate(k), k, q, j, NULL, NULL);
    if j < |q| {
      SweepHere(m, info, was, AtIsolate(k), k, q, j);
    }
  }

  lemma ErasedBefore(m: Memory, k: Isolate)
    requires k !in m.links.isolatePromises
    ensures Mend(m, AtIsolate(k), []) == Memory(m.links, m.view.(lists := m.view.lists - {AtIsolate(k)}))
  {
    assert m.links.isolatePromises - {k} == m.links.isolatePromises;
  }
}
