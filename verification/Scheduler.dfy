/** The scheduler goroutine: two queues, one request in hand, and a select over two channels
    (engine/schedule.go, Schedule.Schedule). */
module Scheduler {
  import opened Spider
  import opened Sums

  function Urgent(): Request -> bool { (r: Request) => r.priority > 0 }

  function Ordinary(): Request -> bool { (r: Request) => r.priority <= 0 }

  function Passes(): Request -> bool { (r: Request) => r.depth <= r.task.maxDepth }

  /** `selecting` says that the goroutine is blocked at the select; otherwise it is at the loop head.
      The last three fields are histories: what the select accepted, what has left the scheduler
      (delivered or dropped), and what was delivered. */
  datatype Sched = Sched(
    pri: seq<Request>, reg: seq<Request>, hand: Option<Request>, selecting: bool,
    accepted: seq<Request>, left: seq<Request>, delivered: seq<Request>)

  const FRESH := Sched([], [], None, false, [], [], [])

  datatype Step = Top | Recv(r: Request) | Send

  predicate Enabled(s: Sched, step: Step) {
    match step
    case Top => !s.selecting
    case Recv(_) => s.selecting
    case Send => s.selecting && s.hand.Some?
  }

  /** Fills an empty hand from the priority queue, else from the ordinary one. */
  function Pick(s: Sched): Sched {
    if s.hand.None? && |s.pri| > 0 then s.(hand := Some(s.pri[0]), pri := s.pri[1..])
    else if s.hand.None? && |s.reg| > 0 then s.(hand := Some(s.reg[0]), reg := s.reg[1..])
    else s
  }

  function Next(s: Sched, step: Step): Sched
    requires Enabled(s, step)
  {
    match step
    case Top =>
      var p := Pick(s);
      if p.hand.Some? && !p.hand.value.Check()
      then p.(hand := None, left := p.left + [p.hand.value])
      else p.(selecting := true)
    case Recv(r) =>
      var a := s.(selecting := false, accepted := s.accepted + [r]);
      if r.priority > 0 then a.(pri := s.pri + [r]) else a.(reg := s.reg + [r])
    case Send =>
      s.(hand := None, selecting := false,
         left := s.left + [s.hand.value], delivered := s.delivered + [s.hand.value])
  }

  /** Runs a list of steps; None when one of them is not enabled. */
  function Exec(s: Sched, steps: seq<Step>): Option<Sched> {
    if |steps| == 0 then Some(s)
    else
      var before := Exec(s, steps[..|steps| - 1]);
      if before.Some? && Enabled(before.value, steps[|steps| - 1])
      then Some(Next(before.value, steps[|steps| - 1]))
      else None
  }

  lemma {:induction false} ExecSnoc(s: Sched, steps: seq<Step>, step: Step)
    ensures Exec(s, steps + [step]) ==
            var before := Exec(s, steps);
            if before.Some? && Enabled(before.value, step) then Some(Next(before.value, step)) else None
  {
    assert (steps + [step])[..|steps|] == steps;
  }

  // ---------------------------------------------------------------- invariant of every run

  function HandOf(s: Sched, p: Request -> bool): seq<Request> {
    if s.hand.Some? && p(s.hand.value) then [s.hand.value] else []
  }

  /** Conservation and first-in-first-out order within each class. */
  ghost predicate Conserves(s: Sched) {
    && Only(Urgent(), s.accepted) == Only(Urgent(), s.left) + HandOf(s, Urgent()) + s.pri
    && Only(Ordinary(), s.accepted) == Only(Ordinary(), s.left) + HandOf(s, Ordinary()) + s.reg
    && s.delivered == Only(Passes(), s.left)
  }

  /** Work conservation: an empty hand at the select means nothing is queued, and a request in
      hand has passed the depth check. */
  ghost predicate WorkConserving(s: Sched) {
    && (s.hand.Some? ==> s.hand.value.Check())
    && (s.selecting && s.hand.None? ==> s.pri == [] && s.reg == [])
  }

  /** Blocked at the select with nothing queued or in hand. */
  predicate Idle(s: Sched) {
    s.selecting && s.hand.None? && s.pri == [] && s.reg == []
  }

  ghost predicate Sorted(s: Sched) {
    && (forall r | r in s.pri :: r.priority > 0)
    && (forall r | r in s.reg :: r.priority <= 0)
  }

  ghost predicate Inv(s: Sched) {
    Conserves(s) && WorkConserving(s) && Sorted(s)
  }

  /** What is in front of the priority and ordinary queues moves, but no request does. */
  lemma {:induction false} PickKeepsOrder(s: Sched)
    requires Sorted(s)
    ensures var p := Pick(s);
            && HandOf(p, Urgent()) + p.pri == HandOf(s, Urgent()) + s.pri
            && HandOf(p, Ordinary()) + p.reg == HandOf(s, Ordinary()) + s.reg
            && Sorted(p) && p.left == s.left && p.accepted == s.accepted && p.delivered == s.delivered
  {
  }

  lemma {:induction false} Regroup(
    l: seq<Request>, h: seq<Request>, q: seq<Request>, h': seq<Request>, q': seq<Request>)
    requires h + q == h' + q'
    ensures l + h + q == l + h' + q'
  {
    assert l + h + q == l + (h + q);
    assert l + h' + q' == l + (h' + q');
  }

  lemma {:induction false} PickConserves(s: Sched)
    requires Conserves(s) && Sorted(s)
    ensures Conserves(Pick(s)) && Sorted(Pick(s))
  {
    PickKeepsOrder(s);
    var p := Pick(s);
    Regroup(Only(Urgent(), s.left), HandOf(s, Urgent()), s.pri, HandOf(p, Urgent()), p.pri);
    Regroup(Only(Ordinary(), s.left), HandOf(s, Ordinary()), s.reg, HandOf(p, Ordinary()), p.reg);
  }

  /** Emptying the hand appends its request to what has left. */
  lemma {:induction false} LeaveHand(s: Sched, t: Sched)
    requires Conserves(s) && s.hand.Some?
    requires t.hand == None && t.left == s.left + [s.hand.value] && t.accepted == s.accepted
    requires t.pri == s.pri && t.reg == s.reg
    requires t.delivered == s.delivered + HandOf(s, Passes())
    ensures Conserves(t)
  {
    OnlySnoc(Urgent(), s.left, s.hand.value);
    OnlySnoc(Ordinary(), s.left, s.hand.value);
    OnlySnoc(Passes(), s.left, s.hand.value);
    assert HandOf(t, Urgent()) == [] && HandOf(t, Ordinary()) == [];
  }

  lemma {:induction false} AppendLast(l: seq<Request>, h: seq<Request>, q: seq<Request>, r: Request)
    ensures l + h + q + [r] == l + h + (q + [r])
  {
  }

  lemma {:induction false} RecvConserves(s: Sched, r: Request)
    requires Inv(s) && s.selecting
    ensures Inv(Next(s, Recv(r)))
  {
    var t := Next(s, Recv(r));
    OnlySnoc(Urgent(), s.accepted, r);
    OnlySnoc(Ordinary(), s.accepted, r);
    AppendLast(Only(Urgent(), s.left), HandOf(s, Urgent()), s.pri, r);
    AppendLast(Only(Ordinary(), s.left), HandOf(s, Ordinary()), s.reg, r);
    assert t.left == s.left && t.delivered == s.delivered;
    assert HandOf(t, Urgent()) == HandOf(s, Urgent()) && HandOf(t, Ordinary()) == HandOf(s, Ordinary());
  }

  lemma {:induction false} StepConserves(s: Sched, step: Step)
    requires Inv(s) && Enabled(s, step)
    ensures Inv(Next(s, step))
  {
    match step
    case Top =>
      PickConserves(s);
      if Pick(s).hand.Some? && !Pick(s).hand.value.Check() {
        assert HandOf(Pick(s), Passes()) == [];
        LeaveHand(Pick(s), Next(s, Top));
      }
    case Recv(r) =>
      RecvConserves(s, r);
    case Send =>
      LeaveHand(s, Next(s, Send));
  }

  lemma {:induction false} RunConserves(s: Sched, steps: seq<Step>)
    requires Inv(s) && Exec(s, steps).Some?
    ensures Inv(Exec(s, steps).value)
  {
    if |steps| == 0 {
    } else {
      RunConserves(s, steps[..|steps| - 1]);
      StepConserves(Exec(s, steps[..|steps| - 1]).value, steps[|steps| - 1]);
    }
  }

  /** Every reachable scheduler state conserves each class in arrival order, delivers exactly what
      passes the check, and never idles with work queued. */
  lemma {:induction false} EveryRunConserves(steps: seq<Step>)
    requires Exec(FRESH, steps).Some?
    ensures Inv(Exec(FRESH, steps).value)
  {
    RunConserves(FRESH, steps);
  }

  // ---------------------------------------------------------------- reaching the select

  function Queued(s: Sched): nat {
    |s.pri| + |s.reg| + (if s.hand.Some? then 1 else 0)
  }

  /** The iterations of the loop up to the next select. */
  function Settle(s: Sched): Sched
    decreases Queued(s)
  {
    if s.selecting then s
    else
      var t := Next(s, Top);
      if t.selecting then t else Settle(t)
  }

  /** The check-and-continue loop always reaches the select. */
  lemma {:induction false} SettleReachesSelect(s: Sched) returns (tops: seq<Step>)
    requires !s.selecting
    ensures Settle(s).selecting
    ensures |tops| <= Queued(s) + 1 && (forall i :: 0 <= i < |tops| ==> tops[i] == Top)
    ensures Exec(s, tops) == Some(Settle(s))
    decreases Queued(s)
  {
    var t := Next(s, Top);
    if t.selecting {
      tops := [Top];
      ExecSnoc(s, [], Top);
      assert [] + [Top] == tops;
    } else {
      var rest := SettleReachesSelect(t);
      tops := [Top] + rest;
      ExecCons(s, Top, rest);
    }
  }

  lemma {:induction false} ExecConcat(s: Sched, a: seq<Step>, b: seq<Step>)
    requires Exec(s, a).Some?
    ensures Exec(s, a + b) == Exec(Exec(s, a).value, b)
  {
    if |b| == 0 {
      assert a + b == a;
    } else {
      ExecConcat(s, a, b[..|b| - 1]);
      assert (a + b)[..|a + b| - 1] == a + b[..|b| - 1];
    }
  }

  lemma {:induction false} ExecCons(s: Sched, step: Step, rest: seq<Step>)
    requires Enabled(s, step)
    ensures Exec(s, [step] + rest) == Exec(Next(s, step), rest)
  {
    ExecSnoc(s, [], step);
    assert [] + [step] == [step];
    ExecConcat(s, [step], rest);
  }

  // ---------------------------------------------------------------- refinement of one list

  /** The simple form: one list in arrival order and the hand. */
  datatype Line = Line(waiting: seq<Request>, hand: Option<Request>, selecting: bool, delivered: seq<Request>)

  const EMPTY_LINE := Line([], None, false, [])

  /** The first urgent position of a list, or its length when there is none. */
  function FirstUrgent(s: seq<Request>): (i: nat)
    ensures i <= |s|
    ensures forall k :: 0 <= k < i ==> s[k].priority <= 0
    ensures i < |s| ==> s[i].priority > 0
  {
    if |s| == 0 || s[0].priority > 0 then 0 else 1 + FirstUrgent(s[1..])
  }

  function TakenIndex(s: seq<Request>): (i: nat)
    requires |s| > 0
    ensures i < |s|
  {
    var i := FirstUrgent(s);
    if i < |s| then i else 0
  }

  predicate LineEnabled(l: Line, step: Step) {
    match step
    case Top => !l.selecting
    case Recv(_) => l.selecting
    case Send => l.selecting && l.hand.Some?
  }

  /** With an empty hand, take the first urgent request if there is one and otherwise the oldest. */
  function Take(l: Line): Line {
    if l.hand.None? && |l.waiting| > 0 then
      var i := TakenIndex(l.waiting);
      l.(hand := Some(l.waiting[i]), waiting := l.waiting[..i] + l.waiting[i + 1..])
    else l
  }

  function LineNext(l: Line, step: Step): Line
    requires LineEnabled(l, step)
  {
    match step
    case Top =>
      var t := Take(l);
      if t.hand.Some? && !t.hand.value.Check() then t.(hand := None) else t.(selecting := true)
    case Recv(r) => l.(waiting := l.waiting + [r], selecting := false)
    case Send => l.(hand := None, selecting := false, delivered := l.delivered + [l.hand.value])
  }

  function LineExec(l: Line, steps: seq<Step>): Option<Line> {
    if |steps| == 0 then Some(l)
    else
      var before := LineExec(l, steps[..|steps| - 1]);
      if before.Some? && LineEnabled(before.value, steps[|steps| - 1])
      then Some(LineNext(before.value, steps[|steps| - 1]))
      else None
  }

  ghost predicate Refines(s: Sched, l: Line) {
    && s.pri == Only(Urgent(), l.waiting)
    && s.reg == Only(Ordinary(), l.waiting)
    && s.hand == l.hand && s.selecting == l.selecting && s.delivered == l.delivered
  }

  /** Filtering a list around one of its elements. */
  lemma {:induction false} OnlyAround(p: Request -> bool, before: seq<Request>, x: Request, after: seq<Request>)
    ensures Only(p, before + [x] + after) == Only(p, before) + (if p(x) then [x] else []) + Only(p, after)
    ensures Only(p, before + after) == Only(p, before) + Only(p, after)
  {
    OnlyConcat(p, before + [x], after);
    OnlySnoc(p, before, x);
    OnlyConcat(p, before, after);
  }

  lemma {:induction false} TakeUrgent(before: seq<Request>, x: Request, after: seq<Request>)
    requires (forall r | r in before :: r.priority <= 0) && x.priority > 0
    ensures Only(Urgent(), before + [x] + after) == [x] + Only(Urgent(), before + after)
    ensures Only(Ordinary(), before + [x] + after) == Only(Ordinary(), before + after)
  {
    OnlyAround(Urgent(), before, x, after);
    OnlyAround(Ordinary(), before, x, after);
    OnlyAll(Urgent(), before);
  }

  lemma {:induction false} TakeOldest(x: Request, after: seq<Request>)
    requires x.priority <= 0 && forall r | r in after :: r.priority <= 0
    ensures Only(Urgent(), [x] + after) == [] && Only(Urgent(), after) == []
    ensures Only(Ordinary(), [x] + after) == [x] + Only(Ordinary(), after)
  {
    OnlyAll(Urgent(), [x] + after);
    OnlyAll(Urgent(), after);
    OnlyAll(Ordinary(), [x] + after);
    OnlyAll(Ordinary(), after);
  }

  lemma {:induction false} TakeRefines(s: Sched, l: Line)
    requires Refines(s, l) && s.hand.None? && |l.waiting| > 0
    ensures Refines(Pick(s), Take(l))
  {
    var i := TakenIndex(l.waiting);
    var before, x, after := l.waiting[..i], l.waiting[i], l.waiting[i + 1..];
    assert l.waiting == before + [x] + after;
    if x.priority > 0 {
      TakeUrgent(before, x, after);
    } else {
      assert before == [] && l.waiting == [x] + after && before + after == after;
      TakeOldest(x, after);
    }
  }

  /** One step of the two queues is one step of the list, and each is enabled when the other is. */
  lemma {:induction false} StepRefines(s: Sched, l: Line, step: Step)
    requires Refines(s, l)
    ensures Enabled(s, step) <==> LineEnabled(l, step)
    ensures Enabled(s, step) ==> Refines(Next(s, step), LineNext(l, step))
  {
    if Enabled(s, step) {
      match step
      case Top =>
        if s.hand.None? && |l.waiting| > 0 {
          TakeRefines(s, l);
        } else {
          assert |l.waiting| == 0 ==> s.pri == [] && s.reg == [];
        }
      case Recv(r) =>
        OnlySnoc(Urgent(), l.waiting, r);
        OnlySnoc(Ordinary(), l.waiting, r);
      case Send =>
    }
  }

  /** On every list of steps the two-queue scheduler and the one-list scheduler are both blocked, or
      both run and have delivered the same requests, hold the same one, and the queues are the two
      classes of the list. */
  lemma {:induction false} QueuesRefineList(steps: seq<Step>)
    ensures Exec(FRESH, steps).Some? <==> LineExec(EMPTY_LINE, steps).Some?
    ensures Exec(FRESH, steps).Some? ==>
              Refines(Exec(FRESH, steps).value, LineExec(EMPTY_LINE, steps).value)
  {
    if |steps| == 0 {
    } else {
      var front, last := steps[..|steps| - 1], steps[|steps| - 1];
      QueuesRefineList(front);
      if Exec(FRESH, front).Some? {
        StepRefines(Exec(FRESH, front).value, LineExec(EMPTY_LINE, front).value, last);
      }
    }
  }

  // ---------------------------------------------------------------- bounded priority inversion

  /** Deliveries made between s and a later state t of the same run. */
  function Since(s: Sched, t: Sched): seq<Request> {
    if |s.delivered| <= |t.delivered| then t.delivered[|s.delivered|..] else []
  }

  /** The urgent request accepted when the history was `s` is still inside the scheduler at t. */
  ghost predicate StillInside(s: Sched, t: Sched) {
    |Only(Urgent(), t.left)| <= |Only(Urgent(), s.accepted)|
  }

  /** What holds at t while the request accepted at s waits. */
  ghost predicate Overtaking(s: Sched, t: Sched) {
    && s.delivered <= t.delivered
    && |Only(Urgent(), s.accepted)| < |Only(Urgent(), t.accepted)|
    && |Only(Urgent(), Since(s, t))| + |Only(Urgent(), s.left)| <= |Only(Urgent(), t.left)|
    && (StillInside(s, t) ==>
          |Only(Ordinary(), Since(s, t))| + |HandOf(t, Ordinary())| <= |HandOf(s, Ordinary())|)
  }

  lemma {:induction false} OvertakingTop(s: Sched, t: Sched)
    requires Inv(s) && Inv(t) && Overtaking(s, t) && !t.selecting
    ensures Overtaking(s, Next(t, Top))
  {
    var u, p := Next(t, Top), Pick(t);
    if p.hand.Some? {
      OnlySnoc(Urgent(), p.left, p.hand.value);
    }
    if StillInside(s, u) {
      assert HandOf(t, Urgent()) != [] || t.pri != [];
      assert |HandOf(p, Ordinary())| <= |HandOf(t, Ordinary())|;
    }
  }

  lemma {:induction false} OvertakingSend(s: Sched, t: Sched)
    requires Overtaking(s, t) && Enabled(t, Send)
    ensures Overtaking(s, Next(t, Send))
  {
    var u, h := Next(t, Send), t.hand.value;
    OnlySnoc(Urgent(), t.left, h);
    assert Since(s, u) == Since(s, t) + [h];
    OnlySnoc(Urgent(), Since(s, t), h);
    OnlySnoc(Ordinary(), Since(s, t), h);
  }

  lemma {:induction false} OvertakingStep(s: Sched, t: Sched, step: Step)
    requires Inv(s) && Inv(t) && Overtaking(s, t) && Enabled(t, step)
    ensures Overtaking(s, Next(t, step))
  {
    match step
    case Top => OvertakingTop(s, t);
    case Recv(r) => OnlySnoc(Urgent(), t.accepted, r);
    case Send => OvertakingSend(s, t);
  }

  lemma {:induction false} OvertakingRun(s: Sched, t: Sched, steps: seq<Step>)
    requires Inv(s) && Inv(t) && Overtaking(s, t) && Exec(t, steps).Some?
    ensures Inv(Exec(t, steps).value) && Overtaking(s, Exec(t, steps).value)
  {
    if |steps| == 0 {
    } else {
      var front := steps[..|steps| - 1];
      OvertakingRun(s, t, front);
      StepConserves(Exec(t, front).value, steps[|steps| - 1]);
      OvertakingStep(s, Exec(t, front).value, steps[|steps| - 1]);
    }
  }

  lemma {:induction false} SplitByClass(s: seq<Request>)
    ensures |s| == |Only(Urgent(), s)| + |Only(Ordinary(), s)|
  {
    if |s| == 0 {
    } else {
      SplitByClass(s[..|s| - 1]);
    }
  }

  /** An urgent request accepted behind j queued urgent ones is overtaken by at most one ordinary
      delivery and by at most j + 1 deliveries in all before it leaves the scheduler, whatever
      arrives in the meantime. */
  lemma {:induction false} BoundedInversion(s: Sched, r: Request, steps: seq<Step>)
    requires Inv(s) && s.selecting && r.priority > 0
    requires Exec(Next(s, Recv(r)), steps).Some?
    ensures var t := Exec(Next(s, Recv(r)), steps).value;
            s.delivered <= t.delivered
            && (StillInside(s, t) ==>
                  && |Only(Ordinary(), Since(s, t))| <= 1
                  && |Since(s, t)| <= |s.pri| + 1)
  {
    var s1 := Next(s, Recv(r));
    StepConserves(s, Recv(r));
    OnlySnoc(Urgent(), s.accepted, r);
    assert Since(s, s1) == [];
    OvertakingRun(s, s1, steps);
    var t := Exec(s1, steps).value;
    SplitByClass(Since(s, t));
  }

  lemma {:induction false} AcceptedGrows(s: Sched, steps: seq<Step>)
    requires Exec(s, steps).Some?
    ensures s.accepted <= Exec(s, steps).value.accepted
  {
    if |steps| == 0 {
    } else {
      AcceptedGrows(s, steps[..|steps| - 1]);
    }
  }

  lemma {:induction false} NthAccepted(before: seq<Request>, r: Request, all: seq<Request>)
    requires r.priority > 0 && before + [r] <= all
    ensures var n := |Only(Urgent(), before)|;
            n < |Only(Urgent(), all)| && Only(Urgent(), all)[n] == r
  {
    var later := all[|before| + 1..];
    assert all == before + [r] + later;
    OnlyConcat(Urgent(), before + [r], later);
    OnlySnoc(Urgent(), before, r);
  }

  lemma {:induction false} Locate(all: seq<Request>, out: seq<Request>, hand: seq<Request>, queue: seq<Request>, n: nat)
    requires all == out + hand + queue && n < |all|
    ensures if |out| <= n then (hand + queue)[n - |out|] == all[n] else out[n] == all[n]
  {
    assert all == out + (hand + queue);
  }

  /** Still inside means just that: the urgent request accepted n-th is in hand or in the priority queue,
      at the place its number says, or else it is the n-th urgent request that left. */
  lemma {:induction false} StillInsideMeansQueued(s: Sched, r: Request, steps: seq<Step>)
    requires Inv(s) && s.selecting && r.priority > 0
    requires Exec(Next(s, Recv(r)), steps).Some?
    ensures var t, n := Exec(Next(s, Recv(r)), steps).value, |Only(Urgent(), s.accepted)|;
            var out, inside := Only(Urgent(), t.left), HandOf(t, Urgent()) + t.pri;
            if StillInside(s, t) then n - |out| < |inside| && inside[n - |out|] == r
            else out[n] == r
  {
    var s1 := Next(s, Recv(r));
    var t := Exec(s1, steps).value;
    StepConserves(s, Recv(r));
    RunConserves(s1, steps);
    AcceptedGrows(s1, steps);
    NthAccepted(s.accepted, r, t.accepted);
    Locate(Only(Urgent(), t.accepted), Only(Urgent(), t.left), HandOf(t, Urgent()), t.pri,
           |Only(Urgent(), s.accepted)|);
  }

  // ---------------------------------------------------------------- the goroutine

  /** What one select did: took a request from requestCh, or found a worker ready to receive. */
  datatype Choice = Accept(r: Request) | WorkerReady

  /** One pass from the loop head through the select. With nothing in hand the channel variable is
      nil, so the send case never fires and the goroutine stays blocked. */
  function Pass(s: Sched, c: Choice): Sched {
    var t := Settle(s);
    match c
    case Accept(r) => if t.selecting then Next(t, Recv(r)) else t
    case WorkerReady => if Enabled(t, Send) then Next(t, Send) else t
  }

  function Loop(s: Sched, cs: seq<Choice>): Sched {
    if |cs| == 0 then s else Pass(Loop(s, cs[..|cs| - 1]), cs[|cs| - 1])
  }

  /** What a list of choices accepts, and what a list of steps does, in order. */
  function Accepts(cs: seq<Choice>): seq<Request> {
    if |cs| == 0 then []
    else Accepts(cs[..|cs| - 1]) + match cs[|cs| - 1] case Accept(r) => [r] case WorkerReady => []
  }

  function Received(steps: seq<Step>): seq<Request> {
    if |steps| == 0 then []
    else Received(steps[..|steps| - 1]) + match steps[|steps| - 1] case Recv(r) => [r] case _ => []
  }

  function Sends(steps: seq<Step>): nat {
    if |steps| == 0 then 0
    else Sends(steps[..|steps| - 1]) + if steps[|steps| - 1] == Send then 1 else 0
  }

  /** A run accepts what its steps receive and delivers once for every send. */
  lemma {:induction false} RunEffect(s: Sched, steps: seq<Step>)
    requires Exec(s, steps).Some?
    ensures var t := Exec(s, steps).value;
            t.accepted == s.accepted + Received(steps) && |t.delivered| == |s.delivered| + Sends(steps)
  {
    if |steps| == 0 {
    } else {
      RunEffect(s, steps[..|steps| - 1]);
    }
  }

  lemma {:induction false} SettleKeepsHistory(s: Sched)
    ensures Settle(s).accepted == s.accepted && Settle(s).delivered == s.delivered
    decreases Queued(s)
  {
    if !s.selecting && !Next(s, Top).selecting {
      SettleKeepsHistory(Next(s, Top));
    }
  }

  /** The loop accepts exactly what its choices accept. */
  lemma {:induction false} LoopAccepts(s: Sched, cs: seq<Choice>)
    ensures Loop(s, cs).accepted == s.accepted + Accepts(cs)
  {
    if |cs| == 0 {
    } else {
      var mid := Loop(s, cs[..|cs| - 1]);
      LoopAccepts(s, cs[..|cs| - 1]);
      SettleKeepsHistory(mid);
      SettleSelects(mid);
    }
  }

  lemma {:induction false} SettleSelects(s: Sched)
    ensures Settle(s).selecting
  {
    if !s.selecting {
      var tops := SettleReachesSelect(s);
    }
  }

  /** The goroutine's loop is a run of the step system that receives exactly what the choices accept and
      sends once for every delivery. So every result about runs holds of it. */
  lemma {:induction false} LoopIsRun(s: Sched, cs: seq<Choice>) returns (steps: seq<Step>)
    ensures Exec(s, steps) == Some(Loop(s, cs))
    ensures Received(steps) == Accepts(cs) && Sends(steps) == |Loop(s, cs).delivered| - |s.delivered|
  {
    steps := LoopRun(s, cs);
    RunEffect(s, steps);
    LoopAccepts(s, cs);
    Cancel(s.accepted, Received(steps), Accepts(cs));
  }

  lemma {:induction false} Cancel(a: seq<Request>, b: seq<Request>, c: seq<Request>)
    requires a + b == a + c
    ensures b == c
  {
    assert (a + b)[|a|..] == b && (a + c)[|a|..] == c;
  }

  lemma {:induction false} LoopRun(s: Sched, cs: seq<Choice>) returns (steps: seq<Step>)
    ensures Exec(s, steps) == Some(Loop(s, cs))
  {
    if |cs| == 0 {
      steps := [];
    } else {
      var front := LoopRun(s, cs[..|cs| - 1]);
      var mid := Loop(s, cs[..|cs| - 1]);
      var tops := [];
      if !mid.selecting {
        tops := SettleReachesSelect(mid);
      }
      ExecConcat(s, front, tops);
      steps := front + tops;
      var t := Settle(mid);
      var step := match cs[|cs| - 1] case Accept(r) => Recv(r) case WorkerReady => Send;
      if Enabled(t, step) {
        ExecSnoc(s, steps, step);
        steps := steps + [step];
      }
    }
  }

  /** What the scheduler holds, in the order in which it would offer it. */
  function Backlog(s: Sched): seq<Request> {
    (if s.hand.Some? then [s.hand.value] else []) + s.pri + s.reg
  }

  /** The first i requests are too deep, and the next one, if any, is not. */
  predicate FirstWithinDepth(b: seq<Request>, i: nat) {
    && i <= |b| && (forall j | 0 <= j < i :: !b[j].Check())
    && (i < |b| ==> b[i].Check())
  }

  /** One iteration of the loop head takes up the head of the backlog, or drops it. */
  lemma {:induction false} TopTakes(s: Sched)
    requires !s.selecting
    ensures var t, b := Next(s, Top), Backlog(s);
            if t.selecting then
              && FirstWithinDepth(b, 0)
              && t.hand == if |b| > 0 then Some(b[0]) else None
            else |b| > 0 && !b[0].Check() && Backlog(t) == b[1..]
  {
    var p := Pick(s);
    assert Backlog(p) == Backlog(s);
    if p.hand.Some? {
      assert Backlog(s) == [p.hand.value] + (p.pri + p.reg);
    }
  }

  /** At the select the hand is the first request of the backlog that is not too deep. */
  lemma {:induction false} SettleTakes(s: Sched) returns (i: nat)
    requires s.selecting ==> WorkConserving(s)
    ensures FirstWithinDepth(Backlog(s), i)
    ensures Settle(s).hand == if i < |Backlog(s)| then Some(Backlog(s)[i]) else None
    decreases Queued(s)
  {
    if s.selecting {
      i := 0;
    } else {
      TopTakes(s);
      var t := Next(s, Top);
      if t.selecting {
        i := 0;
      } else {
        var k := SettleTakes(t);
        i := k + 1;
        assert forall j | 0 < j < i :: Backlog(s)[j] == Backlog(t)[j - 1];
      }
    }
  }

  /** What each choice does to a loop that has made the choices before it. An accepted request is recorded
      and nothing is delivered. A ready worker gets the first of what is held or queued that is within its
      depth limit, the one in hand first and urgent ones before ordinary ones, and nothing if none is. */
  lemma {:induction false} LoopStep(s: Sched, cs: seq<Choice>, c: Choice) returns (i: nat)
    requires Inv(s)
    ensures Loop(s, []) == s
    ensures var before, after := Loop(s, cs), Loop(s, cs + [c]);
            var b := (if before.hand.Some? then [before.hand.value] else []) + before.pri + before.reg;
            && Inv(before) && Inv(after) && i <= |b|
            && (forall j | 0 <= j < i :: b[j].depth > b[j].task.maxDepth)
            && (i < |b| ==> b[i].depth <= b[i].task.maxDepth)
            && match c
               case Accept(r) => after.accepted == before.accepted + [r] && after.delivered == before.delivered
               case WorkerReady =>
                 && after.accepted == before.accepted
                 && after.delivered == before.delivered + if i < |b| then [b[i]] else []
  {
    assert (cs + [c])[..|cs|] == cs;
    var before := Loop(s, cs);
    LoopKeepsInv(s, cs);
    LoopKeepsInv(s, cs + [c]);
    SettleKeepsHistory(before);
    SettleSelects(before);
    i := SettleTakes(before);
  }

  lemma {:induction false} LoopKeepsInv(s: Sched, cs: seq<Choice>)
    requires Inv(s)
    ensures Inv(Loop(s, cs))
  {
    var steps := LoopRun(s, cs);
    RunConserves(s, steps);
  }

  class Schedule {
    var priReqQueue: seq<Request>
    var reqQueue: seq<Request>
    // The goroutine's locals; `offering` says that ch is workerCh rather than nil.
    var req: Option<Request>
    var offering: bool
    var selecting: bool
    ghost var accepted: seq<Request>
    ghost var left: seq<Request>
    ghost var delivered: seq<Request>

    ghost predicate Valid()
      reads this
    {
      offering == req.Some?
    }

    ghost function State(): Sched
      reads this
    {
      Sched(priReqQueue, reqQueue, req, selecting, accepted, left, delivered)
    }

    constructor ()
      ensures Valid() && State() == FRESH
    {
      priReqQueue, reqQueue, req, offering := [], [], None, false;
      selecting, accepted, left, delivered := false, [], [], [];
    }

    /** The iterations that end in `continue`, then the one that falls through to the select. */
    method ToSelect()
      requires Valid()
      modifies this
      ensures Valid() && State() == Settle(old(State())) && State().selecting
    {
      while !selecting
        invariant Valid()
        invariant Settle(State()) == Settle(old(State()))
        decreases !selecting, Queued(State())
      {
        if req.None? && |priReqQueue| > 0 {
          req := Some(priReqQueue[0]);
          priReqQueue := priReqQueue[1..];
          offering := true;
        }
        if req.None? && |reqQueue| > 0 {
          req := Some(reqQueue[0]);
          reqQueue := reqQueue[1..];
          offering := true;
        }
        if req.Some? && !req.value.Check() {
          left := left + [req.value];
          req, offering := None, false;
          continue;
        }
        selecting := true;
      }
    }

    /** The goroutine, driven by what its selects do. */
    method Run(choices: seq<Choice>)
      requires Valid()
      modifies this
      ensures Valid() && State() == Loop(old(State()), choices)
      ensures accepted == old(accepted) + Accepts(choices)
    {
      var i := 0;
      while i < |choices|
        invariant 0 <= i <= |choices|
        invariant Valid() && State() == Loop(old(State()), choices[..i])
      {
        assert choices[..i + 1][..i] == choices[..i];
        ToSelect();
        match choices[i] {
          case Accept(r) =>
            accepted := accepted + [r];
            if r.priority > 0 {
              priReqQueue := priReqQueue + [r];
            } else {
              reqQueue := reqQueue + [r];
            }
            selecting := false;
          case WorkerReady =>
            if offering {
              left, delivered := left + [req.value], delivered + [req.value];
              req, offering := None, false;
              selecting := false;
            }
        }
        i := i + 1;
      }
      assert choices[..|choices|] == choices;
      LoopAccepts(old(State()), choices);
    }
  }
}
