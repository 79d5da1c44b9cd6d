/** Growing a shared Wasm memory in place: any number of threads, each load, permission
    change and compare-exchange a step of its own. */
module WasmGrow {
  import opened Basics

  const PAGE: nat := 0x1_0000

  type Thread = nat

  /** One call, with the maximum cut to the capacity. */
  datatype Request = Request(delta: nat, max: nat)

  datatype Outcome =
    | Grew(pages: nat)  // the previous number of pages
    | NeverFits
    | OverMaximum
    | NoPermission

  datatype Call =
    | Idle
    | Loaded(r: Request, oldLength: nat)
    | Permitted(r: Request, oldLength: nat, newLength: nat)
    | Returned(r: Request, outcome: Outcome)

  /** `writable` are the pages with read and write permission. */
  datatype State = State(byteLength: nat, byteCapacity: nat, writable: set<nat>, calls: map<Thread, Call>)

  datatype Step =
    | Load(t: Thread, delta: nat, maxPages: nat)
    | Permit(t: Thread, granted: bool)
    | Exchange(t: Thread, spurious: bool)

  function CallOf(s: State, t: Thread): Call {
    if t in s.calls then s.calls[t] else Idle
  }

  predicate Enabled(s: State, step: Step) {
    match step
    case Load(t, _, _) => CallOf(s, t).Idle? || CallOf(s, t).Returned?
    case Permit(t, _) => CallOf(s, t).Loaded?
    case Exchange(t, _) => CallOf(s, t).Permitted?
  }

  predicate Below(p: nat, n: nat) {
    p < n
  }

  function PagesBelow(n: nat): set<nat> {
    set p: nat | p < n && Below(p, n)
  }

  function Loads(s: State, delta: nat, maxPages: nat): Call {
    var max := Min(maxPages, s.byteCapacity / PAGE);
    var r := Request(delta, max);
    if delta == 0 then Returned(r, Grew(s.byteLength / PAGE))
    else if delta > max then Returned(r, NeverFits)
    else Loaded(r, s.byteLength)
  }

  function Next(s: State, step: Step): State
    requires Enabled(s, step)
  {
    match step
    case Load(t, delta, maxPages) => s.(calls := s.calls[t := Loads(s, delta, maxPages)])
    case Permit(t, granted) =>
      var c := CallOf(s, t);
      var current := c.oldLength / PAGE;
      if current + c.r.delta > c.r.max then
        s.(calls := s.calls[t := Returned(c.r, OverMaximum)])
      else if !granted then
        s.(calls := s.calls[t := Returned(c.r, NoPermission)])
      else
        s.(writable := s.writable + PagesBelow(current + c.r.delta),
           calls := s.calls[t := Permitted(c.r, c.oldLength, (current + c.r.delta) * PAGE)])
    case Exchange(t, spurious) =>
      var c := CallOf(s, t);
      if s.byteLength == c.oldLength && !spurious then
        s.(byteLength := c.newLength,
           calls := s.calls[t := Returned(c.r, Grew(c.oldLength / PAGE))])
      else
        s.(calls := s.calls[t := Loaded(c.r, s.byteLength)])
  }

  predicate Init(s: State) {
    && s.byteLength % PAGE == 0 && s.byteLength <= s.byteCapacity
    && s.writable == PagesBelow(s.byteLength / PAGE)
    && s.calls == map[]
  }

  ghost predicate CallOk(s: State, c: Call) {
    match c
    case Idle => true
    case Loaded(r, length) => RequestOk(s, r, length)
    case Permitted(r, length, newLength) =>
      && RequestOk(s, r, length)
      && newLength == (length / PAGE + r.delta) * PAGE && length / PAGE + r.delta <= r.max
      && PagesBelow(newLength / PAGE) <= s.writable
    case Returned(r, outcome) =>
      outcome == OverMaximum ==> s.byteLength / PAGE + r.delta > r.max
  }

  ghost predicate RequestOk(s: State, r: Request, length: nat) {
    0 < r.delta <= r.max <= s.byteCapacity / PAGE && length <= s.byteLength && length % PAGE == 0
  }

  ghost predicate Inv(s: State) {
    && s.byteLength % PAGE == 0 && s.byteLength <= s.byteCapacity
    && PagesBelow(s.byteLength / PAGE) <= s.writable
    && (forall p, q :: p in s.writable && 0 <= q < p ==> q in s.writable)
    && (forall t :: t in s.calls ==> CallOk(s, s.calls[t]))
  }

  lemma InitHolds(s: State)
    requires Init(s)
    ensures Inv(s)
  {
  }

  lemma CallKept(s: State, s': State, c: Call)
    requires CallOk(s, c)
    requires s.byteLength <= s'.byteLength && s.writable <= s'.writable && s.byteCapacity == s'.byteCapacity
    ensures CallOk(s', c)
  {
    PagesGrow(s.byteLength, s'.byteLength);
  }

  lemma PagesGrow(a: nat, b: nat)
    requires a <= b
    ensures a / PAGE <= b / PAGE
  {
  }

  lemma ExchangeGrows(s: State, c: Call)
    requires c.Permitted? && CallOk(s, c)
    ensures c.newLength == c.oldLength + c.r.delta * PAGE && c.newLength % PAGE == 0
    ensures c.newLength / PAGE == c.oldLength / PAGE + c.r.delta
    ensures c.newLength <= s.byteCapacity && c.oldLength < c.newLength
  {
    var n := c.oldLength / PAGE + c.r.delta;
    assert c.newLength == n * PAGE;
    assert c.newLength / PAGE == n && c.newLength % PAGE == 0;
    assert n <= s.byteCapacity / PAGE;
    assert c.oldLength == c.oldLength / PAGE * PAGE;
  }

  lemma PageApart(a: nat, b: nat)
    requires a < b && a % PAGE == 0 && b % PAGE == 0
    ensures a + PAGE <= b
  {
    assert a == a / PAGE * PAGE && b == b / PAGE * PAGE;
  }

  lemma OwnCallKept(s: State, step: Step)
    requires Inv(s) && Enabled(s, step)
    ensures CallOk(Next(s, step), Next(s, step).calls[step.t])
  {
    var c := CallOf(s, step.t);
    if step.Exchange? {
      ExchangeGrows(s, c);
    }
  }

  /** Every step keeps the invariant and never shrinks the memory. */
  lemma KeepsStep(s: State, step: Step)
    requires Inv(s) && Enabled(s, step)
    ensures Inv(Next(s, step))
    ensures s.byteLength <= Next(s, step).byteLength
    ensures s.byteCapacity == Next(s, step).byteCapacity && s.writable <= Next(s, step).writable
  {
    var s' := Next(s, step);
    if step.Exchange? {
      ExchangeGrows(s, CallOf(s, step.t));
    }
    OwnCallKept(s, step);
    PagesGrow(s.byteLength, s'.byteLength);
    forall t | t in s'.calls
      ensures CallOk(s', s'.calls[t])
    {
      if t != step.t {
        CallKept(s, s', s.calls[t]);
      }
    }
  }

  // Whole runs.

  datatype History = History(states: seq<State>, steps: seq<Step>)

  ghost predicate Takes(h: History, i: nat)
    requires i < |h.steps| && |h.states| == |h.steps| + 1
  {
    Enabled(h.states[i], h.steps[i]) && h.states[i + 1] == Next(h.states[i], h.steps[i])
  }

  ghost predicate IsRun(h: History) {
    && |h.states| == |h.steps| + 1 && Init(h.states[0])
    && forall i :: 0 <= i < |h.steps| ==> Takes(h, i)
  }

  lemma {:induction false} RunKeeps(h: History, i: nat)
    requires IsRun(h) && i < |h.states|
    ensures Inv(h.states[i])
    decreases i
  {
    if i == 0 {
      InitHolds(h.states[0]);
    } else {
      RunKeeps(h, i - 1);
      assert Takes(h, i - 1);
      KeepsStep(h.states[i - 1], h.steps[i - 1]);
    }
  }

  /** The length is monotone, page-aligned, within capacity and never above the writable
      pages, which are a prefix of the memory. */
  lemma {:induction false} LengthIsSafe(h: History, i: nat, j: nat)
    requires IsRun(h) && i <= j < |h.states|
    ensures h.states[i].byteLength <= h.states[j].byteLength <= h.states[i].byteCapacity == h.states[j].byteCapacity
    ensures h.states[j].byteLength % PAGE == 0
    ensures forall p :: 0 <= p < h.states[j].byteLength / PAGE ==> p in h.states[j].writable
    ensures forall p, q :: p in h.states[j].writable && 0 <= q < p ==> q in h.states[j].writable
    decreases j
  {
    var pages := h.states[j].byteLength / PAGE;
    RunKeeps(h, j);
    assert forall p :: 0 <= p < pages ==> p in PagesBelow(pages);
    if i == j {
    } else {
      LengthIsSafe(h, i, j - 1);
      RunKeeps(h, j - 1);
      assert Takes(h, j - 1);
      KeepsStep(h.states[j - 1], h.steps[j - 1]);
    }
  }

  /** Step `j` makes a call by `delta` pages, not zero, return that it grew the memory
      from `pages` pages. */
  ghost predicate GrowsAt(h: History, j: nat, pages: nat, delta: nat)
    requires |h.states| == |h.steps| + 1
  {
    && j < |h.steps|
    && var c := CallOf(h.states[j + 1], h.steps[j].t);
    c.Returned? && c.outcome == Grew(pages) && c.r.delta == delta > 0
  }

  /** What callers are told is what happens: a call returns that it grew the memory at
      the very step that makes it so many pages larger, and at no other does the length
      change. */
  lemma GrowthMoves(h: History, j: nat, pages: nat, delta: nat)
    requires IsRun(h) && j < |h.steps|
    ensures var before, after := h.states[j].byteLength, h.states[j + 1].byteLength;
            && (GrowsAt(h, j, pages, delta) ==> before == pages * PAGE && after == (pages + delta) * PAGE)
            && (before != after ==>
                  before < after && GrowsAt(h, j, before / PAGE, (after - before) / PAGE))
  {
    RunKeeps(h, j);
    assert Takes(h, j);
    if h.steps[j].Exchange? {
      ExchangeGrows(h.states[j], CallOf(h.states[j], h.steps[j].t));
    }
  }

  /** Two growths never hand out the same page: the intervals [returned, returned + delta)
      of different returns are disjoint, and ordered as the returns are. In particular
      their return values differ. */
  lemma GrowthsDisjoint(h: History, i: nat, p: nat, d: nat, j: nat, q: nat, e: nat)
    requires IsRun(h) && i < j && GrowsAt(h, i, p, d) && GrowsAt(h, j, q, e)
    ensures p < p + d <= q
  {
    GrowthMoves(h, i, p, d);
    GrowthMoves(h, j, q, e);
    LengthIsSafe(h, i + 1, j);
  }

  ghost predicate HandsOut(h: History, j: nat, pages: nat, delta: nat, x: nat)
    requires |h.states| == |h.steps| + 1
  {
    GrowsAt(h, j, pages, delta) && pages <= x < pages + delta
  }

  /** And together they cover what was added: a page was handed out before state `n`
      exactly when it lies between the initial length and the length then. */
  lemma {:induction false} GrowthsCover(h: History, n: nat, x: nat)
    requires IsRun(h) && n < |h.states|
    ensures h.states[0].byteLength / PAGE <= x < h.states[n].byteLength / PAGE <==>
            exists j: nat, p: nat, d: nat :: j < n && HandsOut(h, j, p, d, x)
    decreases n
  {
    if n == 0 {
    } else {
      var m := n - 1;
      var before, after := h.states[m].byteLength, h.states[n].byteLength;
      GrowthsCover(h, m, x);
      LengthIsSafe(h, 0, m);
      LengthIsSafe(h, m, n);
      GrowthMoves(h, m, 0, 0);
      if before / PAGE <= x < after / PAGE {
        assert HandsOut(h, m, before / PAGE, (after - before) / PAGE, x);
      }
      forall p: nat, d: nat | HandsOut(h, m, p, d, x)
        ensures before / PAGE <= x < after / PAGE
      {
        GrowthMoves(h, m, p, d);
      }
    }
  }

  // From what a thread is told back to the steps of its call.

  /** Thread `t` takes no step from `j` to before `i`. */
  ghost predicate Rests(h: History, t: Thread, j: nat, i: nat)
    requires i <= |h.steps|
  {
    forall m :: j <= m < i ==> h.steps[m].t != t
  }

  /** Step `b` began the call that thread `t` is in, or last was in, at state `i`. */
  ghost predicate Began(h: History, b: nat, i: nat, t: Thread)
    requires |h.states| == |h.steps| + 1 && i < |h.states| && !CallOf(h.states[i], t).Idle?
  {
    var r := CallOf(h.states[i], t).r;
    && b < i && h.steps[b].Load? && h.steps[b].t == t && h.steps[b].delta == r.delta
    && r.max == Min(h.steps[b].maxPages, h.states[b].byteCapacity / PAGE)
    && forall m :: b < m < i && h.steps[m].t == t ==> !h.steps[m].Load?
  }

  lemma {:induction false} CallBegan(h: History, i: nat, t: Thread) returns (b: nat)
    requires IsRun(h) && i < |h.states| && !CallOf(h.states[i], t).Idle?
    ensures Began(h, b, i, t)
    decreases i
  {
    assert Takes(h, i - 1);
    if h.steps[i - 1].t == t && h.steps[i - 1].Load? {
      b := i - 1;
    } else {
      b := CallBegan(h, i - 1, t);
    }
  }

  /** Step `j` made thread `t` return what it has returned at state `i`. */
  ghost predicate ReturnedAt(h: History, j: nat, i: nat, t: Thread)
    requires |h.states| == |h.steps| + 1 && i < |h.states|
  {
    && j < i && h.steps[j].t == t && Rests(h, t, j + 1, i)
    && CallOf(h.states[j + 1], t) == CallOf(h.states[i], t)
  }

  lemma {:induction false} CallReturned(h: History, i: nat, t: Thread) returns (j: nat)
    requires IsRun(h) && i < |h.states| && CallOf(h.states[i], t).Returned?
    ensures ReturnedAt(h, j, i, t)
    decreases i
  {
    assert Takes(h, i - 1);
    if h.steps[i - 1].t == t {
      j := i - 1;
    } else {
      j := CallReturned(h, i - 1, t);
    }
  }

  /** Why step `j` made its call return what it did. */
  ghost predicate Cause(h: History, j: nat)
    requires j < |h.steps| && |h.states| == |h.steps| + 1
    requires CallOf(h.states[j + 1], h.steps[j].t).Returned?
  {
    var c, length := CallOf(h.states[j + 1], h.steps[j].t), h.states[j].byteLength;
    match c.outcome
    case Grew(pages) =>
      length == pages * PAGE && if c.r.delta > 0 then GrowsAt(h, j, pages, c.r.delta) else h.steps[j].Load?
    case NeverFits => c.r.delta > c.r.max
    case OverMaximum => length / PAGE + c.r.delta > c.r.max
    case NoPermission => h.steps[j].Permit? && !h.steps[j].granted
  }

  /** Every return a thread has been given, at any later time, was true when it was given
      and has a cause among the steps of that very call: a growth by its own exchange, an
      idle one by its load, a refusal by what it could have asked, a failure by a refused
      permission change. */
  lemma ReturnsAreTrue(h: History, i: nat, t: Thread) returns (b: nat, j: nat)
    requires IsRun(h) && i < |h.states| && CallOf(h.states[i], t).Returned?
    ensures Began(h, b, i, t) && ReturnedAt(h, j, i, t) && b <= j
    ensures CallOf(h.states[j + 1], h.steps[j].t).Returned? && Cause(h, j)
  {
    b := CallBegan(h, i, t);
    j := CallReturned(h, i, t);
    RunKeeps(h, j);
    RunKeeps(h, j + 1);
    assert Takes(h, j);
    var c := CallOf(h.states[j + 1], t);
    assert CallOk(h.states[j + 1], c);
    if c.outcome.Grew? && c.r.delta > 0 {
      GrowthMoves(h, j, c.outcome.pages, c.r.delta);
    }
  }

  /** Two threads told that they grew the memory hold disjoint pages. */
  lemma CallersDiffer(h: History, i: nat, t: Thread, u: Thread)
    requires IsRun(h) && i < |h.states| && t != u
    requires var c, d := CallOf(h.states[i], t), CallOf(h.states[i], u);
             && c.Returned? && c.outcome.Grew? && c.r.delta > 0
             && d.Returned? && d.outcome.Grew? && d.r.delta > 0
    ensures var c, d := CallOf(h.states[i], t), CallOf(h.states[i], u);
            c.outcome.pages + c.r.delta <= d.outcome.pages || d.outcome.pages + d.r.delta <= c.outcome.pages
  {
    var c, d := CallOf(h.states[i], t), CallOf(h.states[i], u);
    var j := CallReturned(h, i, t);
    var k := CallReturned(h, i, u);
    if j < k {
      GrowthsDisjoint(h, j, c.outcome.pages, c.r.delta, k, d.outcome.pages, d.r.delta);
    } else {
      GrowthsDisjoint(h, k, d.outcome.pages, d.r.delta, j, c.outcome.pages, c.r.delta);
    }
  }

  /** A refusal for being over the maximum is never out of date: it still holds when the
      call returns and at any later time. */
  lemma RefusalStands(h: History, i: nat, j: nat, t: Thread)
    requires IsRun(h) && i <= j < |h.states| && CallOf(h.states[i], t).Returned?
    requires CallOf(h.states[i], t).outcome == OverMaximum
    ensures var r := CallOf(h.states[i], t).r; h.states[j].byteLength / PAGE + r.delta > r.max
  {
    RunKeeps(h, i);
    LengthIsSafe(h, i, j);
    PagesGrow(h.states[i].byteLength, h.states[j].byteLength);
  }

  // What each step makes of its call.

  /** What a call makes of its load, exactly. */
  lemma LoadExact(h: History, j: nat)
    requires IsRun(h) && j < |h.steps| && h.steps[j].Load?
    ensures var step, s, c := h.steps[j], h.states[j], CallOf(h.states[j + 1], h.steps[j].t);
            var max := Min(step.maxPages, s.byteCapacity / PAGE);
            && !c.Idle? && c.r == Request(step.delta, max)
            && (step.delta == 0 ==> c == Returned(c.r, Grew(s.byteLength / PAGE)))
            && (step.delta > max ==> c == Returned(c.r, NeverFits))
            && (0 < step.delta <= max ==> c == Loaded(c.r, s.byteLength))
            && h.states[j + 1].byteLength == s.byteLength
  {
    assert Takes(h, j);
  }

  /** When a call gives up before its exchange, exactly: it would go over the maximum, or
      the permission change is refused. Otherwise all the pages it asks for are writable. */
  lemma PermitExact(h: History, j: nat)
    requires IsRun(h) && j < |h.steps| && h.steps[j].Permit?
    ensures CallOf(h.states[j], h.steps[j].t).Loaded?
    ensures var s', before := h.states[j + 1], CallOf(h.states[j], h.steps[j].t);
            var c, pages := CallOf(s', h.steps[j].t), before.oldLength / PAGE + before.r.delta;
            && (if pages > before.r.max then c == Returned(before.r, OverMaximum)
                else if !h.steps[j].granted then c == Returned(before.r, NoPermission)
                else c == Permitted(before.r, before.oldLength, pages * PAGE)
                     && forall p :: 0 <= p < pages ==> p in s'.writable)
            && s'.byteLength == h.states[j].byteLength
  {
    assert Takes(h, j);
    var before := CallOf(h.states[j], h.steps[j].t);
    var pages := before.oldLength / PAGE + before.r.delta;
    assert forall p: nat :: p < pages ==> Below(p, pages);
  }

  /** An exchange succeeds exactly when the length is what the call last saw and the weak
      compare-exchange does not fail for no reason; otherwise the call goes on with the
      length it finds. */
  lemma ExchangeExact(h: History, j: nat)
    requires IsRun(h) && j < |h.steps| && h.steps[j].Exchange?
    ensures CallOf(h.states[j], h.steps[j].t).Permitted?
    ensures var c, length := CallOf(h.states[j], h.steps[j].t), h.states[j].byteLength;
            if length == c.oldLength && !h.steps[j].spurious then
              && GrowsAt(h, j, length / PAGE, c.r.delta)
              && h.states[j + 1].byteLength == length + c.r.delta * PAGE
            else
              && h.states[j + 1].byteLength == length
              && CallOf(h.states[j + 1], h.steps[j].t) == Loaded(c.r, length)
  {
    RunKeeps(h, j);
    assert Takes(h, j);
    ExchangeGrows(h.states[j], CallOf(h.states[j], h.steps[j].t));
  }

  /** A call that nobody interferes with gets what it asks for, if it fits. */
  lemma GrowsAlone(h: History, i: nat, t: Thread, delta: nat, maxPages: nat)
    requires IsRun(h) && i + 3 <= |h.steps|
    requires h.steps[i] == Load(t, delta, maxPages)
    requires h.steps[i + 1] == Permit(t, true) && h.steps[i + 2] == Exchange(t, false)
    requires delta > 0
    requires h.states[i].byteLength / PAGE + delta <= Min(maxPages, h.states[i].byteCapacity / PAGE)
    ensures GrowsAt(h, i + 2, h.states[i].byteLength / PAGE, delta)
  {
    LoadExact(h, i);
    PermitExact(h, i + 1);
    ExchangeExact(h, i + 2);
  }

  /** The exchanges of thread `t` between steps `b` and `i`. */
  function Exchanges(h: History, b: nat, i: nat, t: Thread): nat
    requires i <= |h.steps|
  {
    if i <= b + 1 then 0
    else Exchanges(h, b, i - 1, t) + if h.steps[i - 1].Exchange? && h.steps[i - 1].t == t then 1 else 0
  }

  /** Those among them that failed for no reason. */
  function SpuriousOnes(h: History, b: nat, i: nat, t: Thread): (n: nat)
    requires i <= |h.steps|
    ensures n <= Exchanges(h, b, i, t)
  {
    if i <= b + 1 then 0
    else SpuriousOnes(h, b, i - 1, t) + if h.steps[i - 1] == Exchange(t, true) then 1 else 0
  }

  /** Every exchange of a call that is still looping, but for the spurious ones, has found
      the memory at least a page larger. */
  lemma {:induction false} RetriesSawGrowth(h: History, b: nat, i: nat, t: Thread)
    requires IsRun(h) && i < |h.states| && (CallOf(h.states[i], t).Loaded? || CallOf(h.states[i], t).Permitted?)
    requires Began(h, b, i, t)
    ensures h.states[b].byteLength + (Exchanges(h, b, i, t) - SpuriousOnes(h, b, i, t)) * PAGE
            <= CallOf(h.states[i], t).oldLength
    decreases i
  {
    assert Takes(h, i - 1);
    if i == b + 1 {
      LoadExact(h, b);
    } else {
      RetriesSawGrowth(h, b, i - 1, t);
      RunKeeps(h, i - 1);
      var c := CallOf(h.states[i - 1], t);
      assert CallOk(h.states[i - 1], c);
      if h.steps[i - 1] == Exchange(t, false) {
        PageApart(c.oldLength, h.states[i - 1].byteLength);
      }
    }
  }

  /** Apart from spurious failures of the weak compare-exchange, a call retries at most
      once for every page added since it first looked, so at most as often as pages were
      left then. */
  lemma RetriesBounded(h: History, i: nat, t: Thread) returns (b: nat)
    requires IsRun(h) && i < |h.states|
    requires var c := CallOf(h.states[i], t); c.Loaded? || c.Permitted?
    ensures Began(h, b, i, t) && h.states[b].byteLength <= h.states[i].byteLength
    ensures var first, retries := h.states[b].byteLength, Exchanges(h, b, i, t) - SpuriousOnes(h, b, i, t);
            && retries <= (h.states[i].byteLength - first) / PAGE
            && retries <= (h.states[i].byteCapacity - first) / PAGE
  {
    b := CallBegan(h, i, t);
    RetriesSawGrowth(h, b, i, t);
    RunKeeps(h, i);
    LengthIsSafe(h, b, i);
    assert CallOk(h.states[i], CallOf(h.states[i], t));
    var first := h.states[b].byteLength;
    Fits(Exchanges(h, b, i, t) - SpuriousOnes(h, b, i, t), h.states[i].byteLength - first);
    PagesGrow(h.states[i].byteLength - first, h.states[i].byteCapacity - first);
  }

  lemma Fits(n: int, a: nat)
    requires n * PAGE <= a
    ensures n <= a / PAGE
  {
  }
}
