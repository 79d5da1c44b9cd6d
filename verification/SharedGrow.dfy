/** Growing a growable shared buffer in place: any number of threads, each load,
    permission change and compare-exchange a step of its own. */
module SharedGrow {
  import opened Basics
  import opened Pages

  type Thread = nat

  datatype Outcome = Success | Failure | Race

  /** A caller checks the length before it calls. */
  datatype Call =
    | Idle
    | Checked(request: nat)
    | Loaded(request: nat, oldLength: nat)
    | Permitted(request: nat, oldLength: nat)
    | Returned(request: nat, outcome: Outcome)

  /** The memory below `committed` has read and write permission. */
  datatype State = State(byteLength: nat, committed: nat, pageSize: nat, calls: map<Thread, Call>)

  datatype Step =
    | Check(t: Thread, request: nat)
    | Load(t: Thread)
    | Permit(t: Thread, granted: bool)
    | Exchange(t: Thread, spurious: bool)

  function CallOf(s: State, t: Thread): Call {
    if t in s.calls then s.calls[t] else Idle
  }

  predicate Enabled(s: State, step: Step) {
    match step
    case Check(t, request) => (CallOf(s, t).Idle? || CallOf(s, t).Returned?) && s.byteLength <= request
    case Load(t) => CallOf(s, t).Checked?
    case Permit(t, _) => CallOf(s, t).Loaded?
    case Exchange(t, _) => CallOf(s, t).Permitted?
  }

  function RoundUp(n: nat, pageSize: nat): (r: nat)
    requires pageSize > 0
    ensures n <= r
  {
    PagesFor(n, pageSize) * pageSize
  }

  function With(s: State, t: Thread, c: Call): State {
    s.(calls := s.calls[t := c])
  }

  function Next(s: State, step: Step): State
    requires Enabled(s, step) && s.pageSize > 0
  {
    match step
    case Check(t, request) => With(s, t, Checked(request))
    case Load(t) => With(s, t, Loaded(CallOf(s, t).request, s.byteLength))
    case Permit(t, granted) =>
      var c := CallOf(s, t);
      if c.request < c.oldLength then With(s, t, Returned(c.request, Race))
      else if c.request == c.oldLength then With(s, t, Returned(c.request, Success))
      else if !granted then With(s, t, Returned(c.request, Failure))
      else
        With(s.(committed := Max(s.committed, RoundUp(c.request, s.pageSize))), t, Permitted(c.request, c.oldLength))
    case Exchange(t, spurious) =>
      var c := CallOf(s, t);
      if s.byteLength == c.oldLength && !spurious then
        With(s.(byteLength := c.request), t, Returned(c.request, Success))
      else
        With(s, t, Loaded(c.request, s.byteLength))
  }

  predicate Init(s: State) {
    s.pageSize > 0 && s.committed == RoundUp(s.byteLength, s.pageSize) && s.calls == map[]
  }

  ghost predicate CallOk(s: State, c: Call)
    requires s.pageSize > 0
  {
    c.Permitted? ==> c.oldLength < c.request && RoundUp(c.request, s.pageSize) <= s.committed
  }

  ghost predicate Inv(s: State) {
    && s.pageSize > 0 && s.byteLength <= s.committed
    && (forall t :: t in s.calls ==> CallOk(s, s.calls[t]))
  }

  lemma KeepsStep(s: State, step: Step)
    requires Inv(s) && Enabled(s, step)
    ensures Inv(Next(s, step)) && s.byteLength <= Next(s, step).byteLength
  {
    var s' := Next(s, step);
    assert CallOk(s, CallOf(s, step.t));
    forall t | t in s'.calls
      ensures CallOk(s', s'.calls[t])
    {
      if t != step.t {
        assert CallOk(s, s.calls[t]);
      }
    }
  }

  // Whole runs.

  datatype History = History(states: seq<State>, steps: seq<Step>)

  ghost predicate Takes(h: History, i: nat)
    requires i < |h.steps| && |h.states| == |h.steps| + 1
  {
    Enabled(h.states[i], h.steps[i]) && h.states[i].pageSize > 0 && h.states[i + 1] == Next(h.states[i], h.steps[i])
  }

  ghost predicate IsRun(h: History) {
    && |h.states| == |h.steps| + 1 && Init(h.states[0])
    && forall i :: 0 <= i < |h.steps| ==> Takes(h, i)
  }

  /** The length never exceeds the committed memory, at any moment. */
  lemma {:induction false} LengthIsCommitted(h: History, i: nat)
    requires IsRun(h) && i < |h.states|
    ensures Inv(h.states[i]) && h.states[i].byteLength <= h.states[i].committed
    decreases i
  {
    if i == 0 {
    } else {
      LengthIsCommitted(h, i - 1);
      assert Takes(h, i - 1);
      KeepsStep(h.states[i - 1], h.steps[i - 1]);
    }
  }

  lemma {:induction false} LengthIsMonotone(h: History, i: nat, j: nat)
    requires IsRun(h) && i <= j < |h.states|
    ensures h.states[i].byteLength <= h.states[j].byteLength
    decreases j
  {
    if i == j {
    } else {
      LengthIsMonotone(h, i, j - 1);
      LengthIsCommitted(h, j - 1);
      assert Takes(h, j - 1);
      KeepsStep(h.states[j - 1], h.steps[j - 1]);
    }
  }

  /** Step `j` makes its thread's call by exchange the length for its request, and succeed. */
  ghost predicate GrowsAt(h: History, j: nat)
    requires j < |h.steps| && |h.states| == |h.steps| + 1
  {
    && h.steps[j].Exchange? && h.states[j].byteLength < h.states[j + 1].byteLength
    && CallOf(h.states[j + 1], h.steps[j].t) == Returned(h.states[j + 1].byteLength, Success)
  }

  /** Only successful exchanges move the length, each to what its caller is told it got. */
  lemma OnlyExchangesGrow(h: History, j: nat)
    requires IsRun(h) && j < |h.steps|
    ensures h.states[j].byteLength != h.states[j + 1].byteLength ==> GrowsAt(h, j)
  {
    LengthIsCommitted(h, j);
    assert Takes(h, j);
    assert CallOk(h.states[j], CallOf(h.states[j], h.steps[j].t));
  }

  // What each step makes of its call.

  /** An exchange succeeds exactly when the length is what the call last saw and the weak
      compare-exchange does not fail for no reason; otherwise the call goes on with the
      length it finds. */
  lemma ExchangeExact(h: History, j: nat)
    requires IsRun(h) && j < |h.steps| && h.steps[j].Exchange?
    ensures CallOf(h.states[j], h.steps[j].t).Permitted?
    ensures var c, length := CallOf(h.states[j], h.steps[j].t), h.states[j].byteLength;
            && (GrowsAt(h, j) <==> length == c.oldLength && !h.steps[j].spurious)
            && (GrowsAt(h, j) ==> h.states[j + 1].byteLength == c.request)
            && (!GrowsAt(h, j) ==>
                  && h.states[j + 1].byteLength == length
                  && CallOf(h.states[j + 1], h.steps[j].t) == Loaded(c.request, length))
  {
    LengthIsCommitted(h, j);
    assert Takes(h, j);
    assert CallOk(h.states[j], CallOf(h.states[j], h.steps[j].t));
  }

  /** What a call does about the length it last saw: less than asked for, and it asks for
      permission, with the memory it gets committed; the same, and it succeeds; more, and it
      has lost the race. */
  lemma PermitExact(h: History, j: nat)
    requires IsRun(h) && j < |h.steps| && h.steps[j].Permit?
    ensures CallOf(h.states[j], h.steps[j].t).Loaded?
    ensures var c := CallOf(h.states[j], h.steps[j].t);
            && CallOf(h.states[j + 1], h.steps[j].t) ==
                 (if c.oldLength > c.request then Returned(c.request, Race)
                  else if c.oldLength == c.request then Returned(c.request, Success)
                  else if !h.steps[j].granted then Returned(c.request, Failure)
                  else Permitted(c.request, c.oldLength))
            && h.states[j + 1].byteLength == h.states[j].byteLength
            && (CallOf(h.states[j + 1], h.steps[j].t).Permitted? ==> c.request <= h.states[j + 1].committed)
  {
    assert Takes(h, j);
  }

  /** A call that nobody interferes with gets what it asks for. */
  lemma GrowsAlone(h: History, i: nat, t: Thread, request: nat)
    requires IsRun(h) && i + 4 <= |h.steps|
    requires h.steps[i] == Check(t, request) && h.steps[i + 1] == Load(t)
    requires h.steps[i + 2] == Permit(t, true) && h.steps[i + 3] == Exchange(t, false)
    requires h.states[i].byteLength < request
    ensures GrowsAt(h, i + 3) && h.states[i + 4].byteLength == request
  {
    assert Takes(h, i) && Takes(h, i + 1);
    PermitExact(h, i + 2);
    ExchangeExact(h, i + 3);
  }

  // From what a thread is told back to the steps of its call.

  predicate Active(c: Call) {
    c.Checked? || c.Loaded? || c.Permitted?
  }

  /** The call thread `t` is in at state `i` was announced by the check of step `c`. */
  ghost predicate CheckedAt(h: History, c: nat, i: nat, t: Thread)
    requires |h.states| == |h.steps| + 1 && i < |h.states|
  {
    && c < i && Active(CallOf(h.states[i], t))
    && h.steps[c] == Check(t, CallOf(h.states[i], t).request)
    && h.states[c].byteLength <= CallOf(h.states[i], t).request
    && forall m :: c < m <= i ==> Active(CallOf(h.states[m], t))
  }

  lemma {:induction false} CallChecked(h: History, i: nat, t: Thread) returns (c: nat)
    requires IsRun(h) && i < |h.states| && Active(CallOf(h.states[i], t))
    ensures CheckedAt(h, c, i, t)
    decreases i
  {
    assert Takes(h, i - 1);
    if h.steps[i - 1].t == t && h.steps[i - 1].Check? {
      c := i - 1;
    } else {
      c := CallChecked(h, i - 1, t);
    }
  }

  /** The call thread `t` is in at state `i` was entered by the load of step `b`, and at
      step `m` of that call the length was the one it holds on to. */
  ghost predicate SawAt(h: History, b: nat, m: nat, i: nat, t: Thread)
    requires |h.states| == |h.steps| + 1 && i < |h.states|
    requires CallOf(h.states[i], t).Loaded? || CallOf(h.states[i], t).Permitted?
  {
    && b <= m < i && h.steps[b] == Load(t)
    && (forall k :: b < k < i && h.steps[k].t == t ==> !h.steps[k].Load? && !h.steps[k].Check?)
    && h.steps[m].t == t && (h.steps[m].Load? || h.steps[m].Exchange?)
    && h.states[m].byteLength == CallOf(h.states[i], t).oldLength
  }

  lemma {:induction false} CallSaw(h: History, i: nat, t: Thread) returns (b: nat, m: nat)
    requires IsRun(h) && i < |h.states|
    requires CallOf(h.states[i], t).Loaded? || CallOf(h.states[i], t).Permitted?
    ensures SawAt(h, b, m, i, t)
    decreases i
  {
    assert Takes(h, i - 1);
    if h.steps[i - 1].t == t && h.steps[i - 1].Load? {
      b, m := i - 1, i - 1;
    } else {
      b, m := CallSaw(h, i - 1, t);
      if h.steps[i - 1].t == t && h.steps[i - 1].Exchange? {
        m := i - 1;
      }
    }
  }

  /** Step `j` made thread `t` return what it has returned at state `i`. */
  ghost predicate ReturnedAt(h: History, j: nat, i: nat, t: Thread)
    requires |h.states| == |h.steps| + 1 && i < |h.states|
  {
    && j < i && h.steps[j].t == t && (forall m :: j < m < i ==> h.steps[m].t != t)
    && CallOf(h.states[j + 1], t) == CallOf(h.states[i], t)
  }

  lemma {:induction false} CallReturned(h: History, i: nat, t: Thread) returns (j: nat)
    requires IsRun(h) && i < |h.states| && CallOf(h.states[i], t).Returned?
    ensures ReturnedAt(h, j, i, t)
    ensures CallOf(h.states[j], t).Loaded? || CallOf(h.states[j], t).Permitted?
    ensures CallOf(h.states[j], t).request == CallOf(h.states[i], t).request
    decreases i
  {
    assert Takes(h, i - 1);
    if h.steps[i - 1].t == t {
      j := i - 1;
    } else {
      j := CallReturned(h, i - 1, t);
    }
  }

  /** A successful call takes effect within the call: at an instant `m` not before its
      load `b` and not after its return `j`, the length is exactly what was asked for. It
      is either the call's own exchange that makes it so, or its own load or failed
      exchange that finds it so. */
  lemma SuccessLinearizes(h: History, i: nat, t: Thread) returns (b: nat, m: nat, j: nat)
    requires IsRun(h) && i < |h.states| && CallOf(h.states[i], t).Returned?
    requires CallOf(h.states[i], t).outcome == Success
    ensures ReturnedAt(h, j, i, t) && b <= m <= j + 1 && b <= j && h.steps[b] == Load(t)
    ensures forall k :: b < k < i && h.steps[k].t == t ==> !h.steps[k].Load? && !h.steps[k].Check?
    ensures h.states[m].byteLength == CallOf(h.states[i], t).request
    ensures if m == j + 1 then GrowsAt(h, j) else h.steps[m].t == t && (h.steps[m].Load? || h.steps[m].Exchange?)
  {
    j := CallReturned(h, i, t);
    b, m := CallSaw(h, j, t);
    LengthIsCommitted(h, j);
    assert Takes(h, j) && CallOk(h.states[j], CallOf(h.states[j], t));
    if h.steps[j].Exchange? {
      m := j + 1;
    }
  }

  lemma {:induction false} Crossing(h: History, a: nat, b: nat, request: nat) returns (m: nat)
    requires IsRun(h) && a <= b < |h.states| && h.states[a].byteLength <= request < h.states[b].byteLength
    ensures a <= m < b && h.states[m].byteLength <= request < h.states[m + 1].byteLength
    decreases b
  {
    if h.states[b - 1].byteLength <= request {
      m := b - 1;
    } else {
      m := Crossing(h, a, b - 1, request);
    }
  }

  /** A race is another thread's doing: between the caller's check `c` and its return, at
      step `m`, another thread's exchange takes the length from at most the request to
      strictly more; and more it stays. */
  lemma RaceIsLost(h: History, i: nat, k: nat, t: Thread) returns (c: nat, m: nat, j: nat)
    requires IsRun(h) && i <= k < |h.states| && CallOf(h.states[i], t).Returned?
    requires CallOf(h.states[i], t).outcome == Race
    ensures var request := CallOf(h.states[i], t).request;
            && ReturnedAt(h, j, i, t) && c <= m < j && h.steps[c] == Check(t, request)
            && h.states[m].byteLength <= request < h.states[m + 1].byteLength
            && GrowsAt(h, m) && h.steps[m].t != t
            && request < h.states[k].byteLength
  {
    var request := CallOf(h.states[i], t).request;
    j := CallReturned(h, i, t);
    assert Takes(h, j);
    c := CallChecked(h, j, t);
    var b, saw := CallSaw(h, j, t);
    LengthIsMonotone(h, saw, j);
    LengthIsMonotone(h, j, k);
    m := Crossing(h, c, j, request);
    OnlyExchangesGrow(h, m);
    assert Active(CallOf(h.states[m + 1], t));
  }

  /** A call fails only because it was refused permission, while it still asked for more
      than the length it had last seen. */
  lemma FailsForCause(h: History, i: nat, t: Thread) returns (b: nat, m: nat, j: nat)
    requires IsRun(h) && i < |h.states| && CallOf(h.states[i], t).Returned?
    requires CallOf(h.states[i], t).outcome == Failure
    ensures ReturnedAt(h, j, i, t) && h.steps[j] == Permit(t, false)
    ensures CallOf(h.states[j], t).Loaded? && SawAt(h, b, m, j, t)
    ensures h.states[m].byteLength < CallOf(h.states[i], t).request
  {
    j := CallReturned(h, i, t);
    b, m := CallSaw(h, j, t);
    assert Takes(h, j);
  }
}
