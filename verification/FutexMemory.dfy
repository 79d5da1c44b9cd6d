/** The memory behind the futex wait list: nodes are addresses, each field of a node
    is a map, and a deleted node is in none of them. */
module FutexMemory {
  import opened WaitQueues

  type Ref = nat
  const NULL: Ref := 0

  /** The list a node is linked into. */
  datatype Home = AtLocation(location: Location) | AtIsolate(isolate: Isolate)

  function Key(h: Home): nat {
    match h
    case AtLocation(l) => l
    case AtIsolate(k) => k
  }

  datatype HeadAndTail = HeadAndTail(head: Ref, tail: Ref)

  datatype Ends = NoList | Ends(ht: HeadAndTail)

  datatype Info = Info(
    isAsync: bool,
    isolate: Isolate,
    location: Location,
    waiting: bool,
    expired: bool,      // asynchronous: the backing store is gone
    hasDeadline: bool,  // asynchronous: the timeout time is set
    timeoutTask: bool,  // asynchronous: the timeout task's id is valid
    cleanupOnly: bool)  // asynchronous: marked for cleanup in the main thread

  function KindOf(n: Info): Kind {
    if !n.waiting then Woken
    else if !n.isAsync || !n.expired then Wakeable
    else if n.hasDeadline then Lapsed
    else Stuck
  }

  predicate Fits(h: Home, n: Info) {
    match h
    case AtLocation(l) => n.location == l
    case AtIsolate(k) => n.isAsync && n.isolate == k && !n.waiting
  }

  function Before(s: seq<Ref>, i: nat): Ref
    requires i < |s|
  {
    if i == 0 then NULL else s[i - 1]
  }

  function After(s: seq<Ref>, i: nat): Ref
    requires i < |s|
  {
    if i == |s| - 1 then NULL else s[i + 1]
  }

  function SetEnds(m: map<nat, HeadAndTail>, k: nat, e: Ends): map<nat, HeadAndTail> {
    if e == NoList then m - {k} else m[k := e.ht]
  }

  /** What the code stores. */
  datatype Links = Links(
    prev: map<Ref, Ref>,
    next: map<Ref, Ref>,
    locationLists: map<Location, HeadAndTail>,
    isolatePromises: map<Isolate, HeadAndTail>)

  /** What the stored links spell out: the lists, and for every linked node the
      location or isolate of its list and whether it is an isolate's. */
  datatype View = View(lists: map<Home, seq<Ref>>, key: map<Ref, nat>, resolving: set<Ref>)

  datatype Memory = Memory(links: Links, view: View) {
    function EndsOf(h: Home): Ends {
      match h
      case AtLocation(l) => if l in links.locationLists then Ends(links.locationLists[l]) else NoList
      case AtIsolate(k) => if k in links.isolatePromises then Ends(links.isolatePromises[k]) else NoList
    }

    /** Same maps as `a`, except that list `h` now has these ends. */
    ghost predicate SetsEnds(a: Memory, h: Home, e: Ends) {
      && links.locationLists == (if h.AtIsolate? then a.links.locationLists
           else SetEnds(a.links.locationLists, h.location, e))
      && links.isolatePromises == (if h.AtLocation? then a.links.isolatePromises
           else SetEnds(a.links.isolatePromises, h.isolate, e))
    }

    ghost predicate Linked(s: seq<Ref>) {
      && (forall i :: 0 <= i < |s| ==> s[i] != NULL && s[i] in links.prev && s[i] in links.next)
      && (forall i {:trigger Before(s, i)} :: 0 <= i < |s| ==> links.prev[s[i]] == Before(s, i))
      && (forall i {:trigger After(s, i)} :: 0 <= i < |s| ==> links.next[s[i]] == After(s, i))
    }

    ghost predicate Homed(r: Ref, h: Home) {
      r in view.key && view.key[r] == Key(h) && (r in view.resolving <==> h.AtIsolate?)
    }

    /** The stored head and tail, the links and the nodes all agree on list `h`. */
    ghost predicate ListOk(h: Home, s: seq<Ref>) {
      && s != []
      && Linked(s)
      && Distinct(s)
      && EndsOf(h) == Ends(HeadAndTail(s[0], s[|s| - 1]))
      && (forall i :: 0 <= i < |s| ==> Homed(s[i], h))
    }

    ghost predicate Ok() {
      && links.prev.Keys == links.next.Keys
      && (forall h :: h in view.lists ==> ListOk(h, view.lists[h]))
      && (forall h :: h !in view.lists ==> EndsOf(h) == NoList)
    }

    ghost predicate Unlinked(r: Ref) {
      && r in links.prev && r in links.next
      && links.prev[r] == NULL && links.next[r] == NULL
      && r !in view.key
    }
  }

  ghost predicate SameNode(a: Memory, b: Memory, r: Ref) {
    && r in a.links.prev && r in b.links.prev && a.links.prev[r] == b.links.prev[r]
    && r in a.links.next && r in b.links.next && a.links.next[r] == b.links.next[r]
    && r in a.view.key && r in b.view.key && a.view.key[r] == b.view.key[r]
    && (r in a.view.resolving <==> r in b.view.resolving)
  }

  lemma ListKept(a: Memory, b: Memory, h: Home, s: seq<Ref>)
    requires a.ListOk(h, s) && a.EndsOf(h) == b.EndsOf(h)
    requires forall i :: 0 <= i < |s| ==> SameNode(a, b, s[i])
    ensures b.ListOk(h, s)
  {
  }

  lemma EndsKept(a: Memory, b: Memory, h: Home, e: Ends)
    requires b.SetsEnds(a, h, e)
    ensures forall g :: b.EndsOf(g) == if g == h then e else a.EndsOf(g)
  {
  }

  /** Surgery on one list keeps the whole memory consistent. */
  lemma OneListChanged(a: Memory, b: Memory, h: Home, s: seq<Ref>, e: Ends)
    requires a.Ok() && b.SetsEnds(a, h, e)
    requires b.view.lists == SetQueue(a.view.lists, h, s)
    requires b.links.prev.Keys == b.links.next.Keys
    requires if s == [] then e == NoList else b.ListOk(h, s)
    requires forall g, i :: g in a.view.lists && g != h && 0 <= i < |a.view.lists[g]| ==>
               SameNode(a, b, a.view.lists[g][i])
    ensures b.Ok()
  {
    EndsKept(a, b, h, e);
    forall g | g in b.view.lists
      ensures b.ListOk(g, b.view.lists[g])
    {
      if g != h {
        ListKept(a, b, g, a.view.lists[g]);
      }
    }
  }

  /** `b` is `a` with `node` appended at the tail of list `h`, pointer by pointer. */
  ghost predicate AppendLinks(a: Memory, b: Memory, h: Home, node: Ref) {
    match a.EndsOf(h)
    case NoList =>
      && b.SetsEnds(a, h, Ends(HeadAndTail(node, node)))
      && b.links.prev == a.links.prev
      && b.links.next == a.links.next
    case Ends(ht) =>
      && b.SetsEnds(a, h, Ends(HeadAndTail(ht.head, node)))
      && b.links.prev == a.links.prev[node := ht.tail]
      && b.links.next == a.links.next[ht.tail := node]
  }

  ghost predicate AppendStep(a: Memory, b: Memory, h: Home, node: Ref) {
    && b.view.key == a.view.key[node := Key(h)]
    && b.view.resolving == (if h.AtIsolate? then a.view.resolving + {node} else a.view.resolving - {node})
    && AppendLinks(a, b, h, node)
  }

  lemma AppendedLinks(a: Memory, b: Memory, s: seq<Ref>, node: Ref)
    requires s != [] && a.Linked(s) && Distinct(s) && node !in s
    requires node != NULL && node in a.links.prev && node in a.links.next && a.links.next[node] == NULL
    requires b.links.prev == a.links.prev[node := s[|s| - 1]] && b.links.next == a.links.next[s[|s| - 1] := node]
    ensures b.Linked(s + [node])
  {
    var s' := s + [node];
    forall i | 0 <= i < |s'|
      ensures s'[i] != NULL && s'[i] in b.links.prev && s'[i] in b.links.next
      ensures b.links.prev[s'[i]] == Before(s', i)
      ensures b.links.next[s'[i]] == After(s', i)
    {
      if i < |s| {
        assert s'[i] == s[i] && s[i] != node;
        LinkedAt(a, s, i);
        assert i < |s| - 1 ==> Apart(s, i, |s| - 1);
      }
    }
  }

  lemma AppendedListOk(a: Memory, b: Memory, h: Home, s: seq<Ref>, node: Ref)
    requires if s == [] then a.EndsOf(h) == NoList else a.ListOk(h, s)
    requires node != NULL && a.Unlinked(node) && AppendStep(a, b, h, node)
    ensures b.ListOk(h, s + [node])
  {
    var s' := s + [node];
    assert forall i :: 0 <= i < |s| ==> s'[i] == s[i] && a.Homed(s[i], h);
    forall i, j | 0 <= i < j < |s'|
      ensures Apart(s', i, j)
    {
      assert j < |s| ==> Apart(s, i, j);
    }
    if s != [] {
      AppendedLinks(a, b, s, node);
    }
  }

  lemma AppendKeepsOthers(a: Memory, b: Memory, h: Home, node: Ref, g: Home, s: seq<Ref>)
    requires a.ListOk(g, s) && g != h && a.Unlinked(node) && AppendStep(a, b, h, node)
    requires var e := a.EndsOf(h); e.Ends? ==> a.Homed(e.ht.tail, h)
    ensures forall i :: 0 <= i < |s| ==> SameNode(a, b, s[i])
  {
    forall i | 0 <= i < |s|
      ensures SameNode(a, b, s[i])
    {
      var r := s[i];
      assert a.Homed(r, g) && r in a.links.prev && r in a.links.next;
    }
  }

  lemma Appended(a: Memory, b: Memory, h: Home, node: Ref)
    requires a.Ok() && node != NULL && a.Unlinked(node)
    requires AppendStep(a, b, h, node) && b.view.lists == Enqueue(a.view.lists, h, node)
    ensures b.Ok()
  {
    var s := if h in a.view.lists then a.view.lists[h] else [];
    assert h in a.view.lists ==> a.ListOk(h, s);
    assert b.links.prev.Keys == a.links.prev.Keys && b.links.next.Keys == a.links.next.Keys by {
      if s != [] {
        assert s[|s| - 1] in a.links.next.Keys;
      }
    }
    AppendedListOk(a, b, h, s, node);
    forall g | g in a.view.lists && g != h
      ensures forall i :: 0 <= i < |a.view.lists[g]| ==> SameNode(a, b, a.view.lists[g][i])
    {
      AppendKeepsOthers(a, b, h, node, g, a.view.lists[g]);
    }
    OneListChanged(a, b, h, s + [node],
                   Ends(HeadAndTail(if a.EndsOf(h) == NoList then node else a.EndsOf(h).ht.head, node)));
  }

  function Splice<T>(s: seq<T>, i: nat): (r: seq<T>)
    requires i < |s|
    ensures |r| == |s| - 1
  {
    s[..i] + s[i + 1..]
  }

  lemma SpliceAt<T>(s: seq<T>, i: nat, j: nat)
    requires i < |s| && j < |s| - 1
    ensures Splice(s, i)[j] == s[if j < i then j else j + 1]
  {
  }

  /** The link fields once `node`, standing between `p` and `n`, is unlinked. */
  function PrevWithout(prev: map<Ref, Ref>, p: Ref, node: Ref, n: Ref): map<Ref, Ref> {
    (if n == NULL then prev else prev[n := p])[node := NULL]
  }

  function NextWithout(next: map<Ref, Ref>, p: Ref, node: Ref, n: Ref): map<Ref, Ref> {
    (if p == NULL then next else next[p := n])[node := NULL]
  }

  function EndsWithout(ht: HeadAndTail, p: Ref, n: Ref): Ends {
    if p == NULL && n == NULL then NoList
    else Ends(HeadAndTail(if p == NULL then n else ht.head, if n == NULL then p else ht.tail))
  }

  /** `b` is `a` with `node` unlinked from list `h`, pointer by pointer. */
  ghost predicate UnlinkLinks(a: Memory, b: Memory, h: Home, node: Ref)
    requires node in a.links.prev && node in a.links.next && a.EndsOf(h).Ends?
  {
    && b.links.prev == PrevWithout(a.links.prev, a.links.prev[node], node, a.links.next[node])
    && b.links.next == NextWithout(a.links.next, a.links.prev[node], node, a.links.next[node])
    && b.SetsEnds(a, h, EndsWithout(a.EndsOf(h).ht, a.links.prev[node], a.links.next[node]))
  }

  ghost predicate UnlinkStep(a: Memory, b: Memory, h: Home, node: Ref)
    requires node in a.links.prev && node in a.links.next && a.EndsOf(h).Ends?
  {
    b.view.key == a.view.key - {node} && b.view.resolving == a.view.resolving && UnlinkLinks(a, b, h, node)
  }

  lemma LinkedAt(a: Memory, s: seq<Ref>, i: nat)
    requires a.Linked(s) && i < |s|
    ensures s[i] in a.links.prev && s[i] in a.links.next && a.links.prev[s[i]] == Before(s, i)
              && a.links.next[s[i]] == After(s, i)
  {
    var p, n := Before(s, i), After(s, i);
  }

  lemma NeighboursOf(a: Memory, s: seq<Ref>, i: nat, k: nat)
    requires a.Linked(s) && Distinct(s) && i < |s| && k < |s| && i != k
    ensures s[k] != s[i]
    ensures s[k] == Before(s, i) <==> k == i - 1
    ensures s[k] == After(s, i) <==> k == i + 1
  {
    assert s[k] != NULL;
    assert if i < k then Apart(s, i, k) else Apart(s, k, i);
    if i > 0 && k != i - 1 {
      assert if i - 1 < k then Apart(s, i - 1, k) else Apart(s, k, i - 1);
    }
    if i < |s| - 1 && k != i + 1 {
      assert if i + 1 < k then Apart(s, i + 1, k) else Apart(s, k, i + 1);
    }
  }

  /** What the links of a remaining node `s[k]` become. */
  lemma UnlinkedAt(a: Memory, b: Memory, s: seq<Ref>, i: nat, k: nat)
    requires a.Linked(s) && Distinct(s) && i < |s| && k < |s| && i != k
    requires b.links.prev == PrevWithout(a.links.prev, Before(s, i), s[i], After(s, i))
    requires b.links.next == NextWithout(a.links.next, Before(s, i), s[i], After(s, i))
    ensures s[k] in b.links.prev && b.links.prev[s[k]] == if k == i + 1 then Before(s, i) else Before(s, k)
    ensures s[k] in b.links.next && b.links.next[s[k]] == if k == i - 1 then After(s, i) else After(s, k)
  {
    LinkedAt(a, s, k);
    NeighboursOf(a, s, i, k);
  }

  lemma UnlinkedLinks(a: Memory, b: Memory, s: seq<Ref>, i: nat)
    requires a.Linked(s) && Distinct(s) && i < |s|
    requires b.links.prev == PrevWithout(a.links.prev, Before(s, i), s[i], After(s, i))
    requires b.links.next == NextWithout(a.links.next, Before(s, i), s[i], After(s, i))
    ensures b.Linked(Splice(s, i))
  {
    var s' := Splice(s, i);
    forall j | 0 <= j < |s'|
      ensures s'[j] != NULL && s'[j] in b.links.prev && s'[j] in b.links.next
      ensures b.links.prev[s'[j]] == Before(s', j)
      ensures b.links.next[s'[j]] == After(s', j)
    {
      var k := if j < i then j else j + 1;
      UnlinkedAt(a, b, s, i, k);
      SpliceAt(s, i, j);
      if 0 < j {
        SpliceAt(s, i, j - 1);
      }
      if j < |s'| - 1 {
        SpliceAt(s, i, j + 1);
      }
    }
  }

  lemma UnlinkedListOk(a: Memory, b: Memory, h: Home, s: seq<Ref>, i: nat)
    requires a.ListOk(h, s) && i < |s| && UnlinkStep(a, b, h, s[i])
    ensures if |s| == 1 then EndsWithout(a.EndsOf(h).ht, Before(s, i), After(s, i)) == NoList
              else b.ListOk(h, Splice(s, i))
  {
    LinkedAt(a, s, i);
    UnlinkedLinks(a, b, s, i);
    SpliceDistinct(s, i);
    UnlinkedEnds(a, h, s, i);
    var s' := Splice(s, i);
    forall j | 0 <= j < |s'|
      ensures b.Homed(s'[j], h)
    {
      var k := if j < i then j else j + 1;
      SpliceAt(s, i, j);
      assert a.Homed(s[k], h) && s'[j] in s';
    }
  }

  lemma SpliceDistinct<T>(s: seq<T>, i: nat)
    requires Distinct(s) && i < |s|
    ensures Distinct(Splice(s, i)) && s[i] !in Splice(s, i)
  {
    var r := Splice(s, i);
    forall j, k | 0 <= j < k < |r|
      ensures Apart(r, j, k)
    {
      SpliceAt(s, i, j);
      SpliceAt(s, i, k);
      assert Apart(s, if j < i then j else j + 1, if k < i then k else k + 1);
    }
    forall j | 0 <= j < |r|
      ensures r[j] != s[i]
    {
      SpliceAt(s, i, j);
      assert if j < i then Apart(s, j, i) else Apart(s, i, j + 1);
    }
  }

  lemma UnlinkedEnds(a: Memory, h: Home, s: seq<Ref>, i: nat)
    requires a.ListOk(h, s) && i < |s|
    ensures EndsWithout(a.EndsOf(h).ht, Before(s, i), After(s, i)) ==
            if |s| == 1 then NoList else Ends(HeadAndTail(Splice(s, i)[0], Splice(s, i)[|s| - 2]))
  {
    assert 0 < i ==> s[i - 1] != NULL;
    assert i < |s| - 1 ==> s[i + 1] != NULL;
  }

  lemma UnlinkKeepsOthers(a: Memory, b: Memory, h: Home, s: seq<Ref>, i: nat, g: Home, z: seq<Ref>)
    requires a.ListOk(h, s) && i < |s| && UnlinkStep(a, b, h, s[i])
    requires a.ListOk(g, z) && g != h
    ensures forall j :: 0 <= j < |z| ==> SameNode(a, b, z[j])
  {
    LinkedAt(a, s, i);
    forall j | 0 <= j < |z|
      ensures SameNode(a, b, z[j])
    {
      var r := z[j];
      assert a.Homed(r, g) && r in a.links.prev && r in a.links.next;
      assert forall k :: 0 <= k < |s| ==> a.Homed(s[k], h) && s[k] != r;
    }
  }

  /** Unlinking one node leaves the memory consistent and that node on no list. */
  lemma Removed(a: Memory, b: Memory, h: Home, s: seq<Ref>, i: nat)
    requires a.Ok() && h in a.view.lists && s == a.view.lists[h] && i < |s|
    requires a.ListOk(h, s) && UnlinkStep(a, b, h, s[i])
    requires b.view.lists == SetQueue(a.view.lists, h, Splice(s, i))
    ensures b.Ok() && b.Unlinked(s[i])
  {
    LinkedAt(a, s, i);
    KeysKept(a, b, s, i);
    UnlinkedListOk(a, b, h, s, i);
    forall g | g in a.view.lists && g != h
      ensures forall j :: 0 <= j < |a.view.lists[g]| ==> SameNode(a, b, a.view.lists[g][j])
    {
      UnlinkKeepsOthers(a, b, h, s, i, g, a.view.lists[g]);
    }
    OneListChanged(a, b, h, Splice(s, i), EndsWithout(a.EndsOf(h).ht, Before(s, i), After(s, i)));
  }

  /** The lists once `node` is off list `h`. */
  function Forget(m: Memory, h: Home, node: Ref): Memory
    requires h in m.view.lists
  {
    m.(view := View(Dequeue(m.view.lists, h, node), m.view.key - {node}, m.view.resolving))
  }

  lemma RemovedNow(a: Memory, m: Memory, h: Home, s: seq<Ref>, i: nat)
    requires a.Ok() && h in a.view.lists && s == a.view.lists[h] && i < |s|
    requires a.ListOk(h, s) && UnlinkLinks(a, m, h, s[i])
    requires m.view.lists == a.view.lists && m.view.key == a.view.key && m.view.resolving == a.view.resolving
    ensures Forget(m, h, s[i]).Ok() && Forget(m, h, s[i]).Unlinked(s[i])
    ensures m.links.prev.Keys == a.links.prev.Keys
  {
    WithoutAt(s, i);
    var b := Forget(m, h, s[i]);
    assert UnlinkStep(a, b, h, s[i]);
    Removed(a, b, h, s, i);
    LinkedAt(a, s, i);
    KeysKept(a, m, s, i);
  }

  /** What `RemoveNode` finds at a listed node, and what unlinking it leaves. */
  lemma Removable(a: Memory, h: Home, node: Ref)
    requires a.Ok() && h in a.view.lists && node in a.view.lists[h]
    ensures a.EndsOf(h).Ends? && node in a.links.prev && node in a.links.next
    ensures a.links.prev[node] != NULL ==> a.links.prev[node] in a.links.next && a.links.prev[node] != node
    ensures a.links.next[node] != NULL ==> a.links.next[node] in a.links.prev && a.links.next[node] != node
  {
    var s := a.view.lists[h];
    var i :| 0 <= i < |s| && s[i] == node;
    Unlinkable(a, h, s, i);
  }

  lemma RemovedNode(a: Memory, m: Memory, h: Home, node: Ref)
    requires a.Ok() && h in a.view.lists && node in a.view.lists[h]
    requires node in a.links.prev && node in a.links.next && a.EndsOf(h).Ends? && UnlinkLinks(a, m, h, node)
               && m.view == a.view
    ensures Forget(m, h, node).Ok() && Forget(m, h, node).Unlinked(node)
    ensures m.links.prev.Keys == a.links.prev.Keys
  {
    var s := a.view.lists[h];
    var i :| 0 <= i < |s| && s[i] == node;
    Unlinkable(a, h, s, i);
    RemovedNow(a, m, h, s, i);
  }

  /** The lists once `node` is at the end of list `h`. */
  function Remember(m: Memory, h: Home, node: Ref): View {
    View(Enqueue(m.view.lists, h, node), m.view.key[node := Key(h)],
         if h.AtIsolate? then m.view.resolving + {node} else m.view.resolving - {node})
  }

  lemma AppendedNow(a: Memory, m: Memory, h: Home, node: Ref)
    requires a.Ok() && node != NULL && a.Unlinked(node)
    requires AppendLinks(a, m, h, node) && m.view == a.view
    ensures Memory(m.links, Remember(a, h, node)).Ok()
    ensures m.links.prev.Keys == a.links.prev.Keys
    ensures h in a.view.lists <==> a.EndsOf(h) != NoList
  {
    var b := Memory(m.links, Remember(a, h, node));
    assert AppendStep(a, b, h, node);
    Appended(a, b, h, node);
    if h in a.view.lists {
      assert a.ListOk(h, a.view.lists[h]);
    } else {
      assert a.EndsOf(h) == NoList;
    }
  }

  lemma LastHasNoNext(m: Memory, h: Home, node: Ref)
    requires m.Ok() && h in m.view.lists && m.view.lists[h] != []
    requires m.view.lists[h][|m.view.lists[h]| - 1] == node
    ensures node in m.links.next && m.links.next[node] == NULL
  {
    var s := m.view.lists[h];
    assert m.ListOk(h, s);
    LinkedAt(m, s, |s| - 1);
  }

  /** Every listed node is alive and of the kind its list holds. */
  ghost predicate FitOn(info: map<Ref, Info>, h: Home, s: seq<Ref>) {
    forall i :: 0 <= i < |s| ==> s[i] in info && Fits(h, info[s[i]])
  }

  ghost predicate AllFit(info: map<Ref, Info>, lists: map<Home, seq<Ref>>) {
    forall h :: h in lists ==> FitOn(info, h, lists[h])
  }

  lemma {:induction false} WithoutFits(info: map<Ref, Info>, h: Home, s: seq<Ref>, node: Ref)
    requires FitOn(info, h, s)
    ensures FitOn(info, h, Without(s, node))
  {
    if s != [] && s[0] != node {
      WithoutFits(info, h, s[1..], node);
    }
  }

  lemma DequeueFits(info: map<Ref, Info>, lists: map<Home, seq<Ref>>, h: Home, node: Ref)
    requires AllFit(info, lists) && h in lists
    ensures AllFit(info, Dequeue(lists, h, node))
  {
    WithoutFits(info, h, lists[h], node);
  }

  lemma EnqueueFits(info: map<Ref, Info>, lists: map<Home, seq<Ref>>, h: Home, node: Ref)
    requires AllFit(info, lists) && node in info && Fits(h, info[node])
    ensures AllFit(info, Enqueue(lists, h, node))
  {
  }

  /** Changing one node's contents keeps its lists' kinds if it still fits them. */
  lemma ChangeFits(info: map<Ref, Info>, lists: map<Home, seq<Ref>>, node: Ref, n: Info)
    requires AllFit(info, lists) && node in info
    requires forall h :: Fits(h, info[node]) ==> Fits(h, n)
    ensures AllFit(info[node := n], lists)
  {
    forall h | h in lists
      ensures FitOn(info[node := n], h, lists[h])
    {
      assert FitOn(info, h, lists[h]);
    }
  }

  /** A new node, whatever its contents, changes no list. */
  lemma Created(m: Memory, info: map<Ref, Info>, node: Ref, n: Info)
    requires m.Ok() && AllFit(info, m.view.lists) && m.links.prev.Keys == info.Keys && node !in info
    ensures var links := m.links.(prev := m.links.prev[node := NULL], next := m.links.next[node := NULL]);
            var now := Memory(links, m.view.(key := m.view.key - {node}));
            && now.Ok() && now.Unlinked(node)
            && AllFit(info[node := n], now.view.lists) && now.links.prev.Keys == info[node := n].Keys
  {
    var links := m.links.(prev := m.links.prev[node := NULL], next := m.links.next[node := NULL]);
    var now := Memory(links, m.view.(key := m.view.key - {node}));
    forall h | h in m.view.lists
      ensures now.ListOk(h, m.view.lists[h]) && FitOn(info[node := n], h, m.view.lists[h])
    {
      assert m.ListOk(h, m.view.lists[h]) && FitOn(info, h, m.view.lists[h]);
      CreatedElsewhere(m, now, node, h, m.view.lists[h]);
    }
    forall h | h !in m.view.lists
      ensures now.EndsOf(h) == NoList
    {
      assert m.EndsOf(h) == NoList;
    }
  }

  lemma CreatedElsewhere(m: Memory, now: Memory, node: Ref, h: Home, s: seq<Ref>)
    requires m.ListOk(h, s) && node !in m.links.prev
    requires now.links == m.links.(prev := m.links.prev[node := NULL], next := m.links.next[node := NULL])
    requires now.view == m.view.(key := m.view.key - {node})
    ensures now.ListOk(h, s)
  {
    forall i | 0 <= i < |s|
      ensures SameNode(m, now, s[i])
    {
      assert m.Homed(s[i], h) && s[i] in m.links.prev && s[i] in m.links.next;
    }
    ListKept(m, now, h, s);
  }

  /** An unlinked node's contents are nobody's concern. */
  lemma UnlinkedAnew(m: Memory, info: map<Ref, Info>, r: Ref, n: Info)
    requires m.Ok() && AllFit(info, m.view.lists) && m.Unlinked(r)
    ensures AllFit(info[r := n], m.view.lists)
  {
    forall h | h in m.view.lists
      ensures FitOn(info[r := n], h, m.view.lists[h])
    {
      assert FitOn(info, h, m.view.lists[h]) && m.ListOk(h, m.view.lists[h]);
      assert forall i :: 0 <= i < |m.view.lists[h]| ==> m.Homed(m.view.lists[h][i], h);
    }
  }

  lemma TailElsewhere(a: Memory, h: Home, node: Ref)
    requires a.Ok() && a.Unlinked(node)
    ensures a.EndsOf(h).Ends? ==> a.EndsOf(h).ht.tail != node
  {
    if h in a.view.lists {
      assert a.ListOk(h, a.view.lists[h]);
    }
  }

  /** What `RemoveNode` relies on. */
  lemma Unlinkable(a: Memory, h: Home, s: seq<Ref>, i: nat)
    requires a.Ok() && h in a.view.lists && s == a.view.lists[h] && i < |s|
    ensures a.ListOk(h, s) && a.EndsOf(h).Ends?
    ensures s[i] in a.links.prev && s[i] in a.links.next && a.links.prev[s[i]] == Before(s, i)
              && a.links.next[s[i]] == After(s, i)
    ensures i > 0 ==> s[i - 1] in a.links.next && s[i - 1] != s[i] && s[i - 1] != NULL
    ensures i < |s| - 1 ==> s[i + 1] in a.links.prev && s[i + 1] != s[i] && s[i + 1] != NULL
    ensures i == 0 <==> a.EndsOf(h).ht.head == s[i]
    ensures i == |s| - 1 <==> a.EndsOf(h).ht.tail == s[i]
  {
    LinkedAt(a, s, i);
    assert i > 0 ==> Apart(s, i - 1, i) && Apart(s, 0, i);
    assert i < |s| - 1 ==> Apart(s, i, i + 1) && Apart(s, i, |s| - 1);
  }

  lemma KeysKept(a: Memory, b: Memory, s: seq<Ref>, i: nat)
    requires a.Linked(s) && i < |s|
    requires b.links.prev == PrevWithout(a.links.prev, Before(s, i), s[i], After(s, i))
    requires b.links.next == NextWithout(a.links.next, Before(s, i), s[i], After(s, i))
    ensures b.links.prev.Keys == a.links.prev.Keys && b.links.next.Keys == a.links.next.Keys
    ensures b.links.prev[s[i]] == NULL && b.links.next[s[i]] == NULL
  {
  }
}
