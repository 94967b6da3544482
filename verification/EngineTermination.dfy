/** Every crawl ends: a numeric bound on the requests workers consume and on the steps of any kind. */
module EngineTermination {
  import opened Spider
  import opened Sums
  import opened Engine
  import opened EngineInvariant
  import S = Scheduler

  function Pow(base: nat, e: nat): (p: nat) {
    if e == 0 then 1 else base * Pow(base, e - 1)
  }

  lemma {:induction false} PowAtLeastOne(base: nat, e: nat)
    requires base >= 1
    ensures Pow(base, e) >= 1
  {
    if e == 0 {
    } else {
      PowAtLeastOne(base, e - 1);
      assert base * Pow(base, e - 1) >= 1 * Pow(base, e - 1);
    }
  }

  /** Pow is the power: 1 for no factor, the base for one, and exponents add up. */
  lemma {:induction false} PowAdds(base: nat, a: nat, b: nat)
    ensures Pow(base, 0) == 1 && Pow(base, 1) == base
    ensures Pow(base, a + b) == Pow(base, a) * Pow(base, b)
  {
    if a == 0 {
    } else {
      PowAdds(base, a - 1, b);
      Associate(base, Pow(base, a - 1), Pow(base, b));
    }
  }

  lemma {:induction false} Associate(x: nat, y: nat, z: nat)
    ensures x * (y * z) == x * y * z
  {
  }

  /** How many more levels the depth check admits. */
  function LevelsLeft(r: Request): nat {
    if r.Check() then r.task.maxDepth + 1 - r.depth else 0
  }

  function Base(cfg: Config): nat { cfg.maxChildren + 2 }

  /** The potential of an outstanding request: it can still spawn LevelsLeft generations, and it can be
      retried once more unless its key is already in the failure table. */
  function Weight(cfg: Config, failed: set<string>): Request -> nat {
    (r: Request) => Pow(Base(cfg), 2 * LevelsLeft(r) + (if Key(cfg, r) in failed then 0 else 1))
  }

  lemma {:induction false} WeightPositive(cfg: Config, failed: set<string>, r: Request)
    ensures Weight(cfg, failed)(r) >= 1
  {
    PowAtLeastOne(Base(cfg), 2 * LevelsLeft(r) + (if Key(cfg, r) in failed then 0 else 1));
  }

  /** A first failure costs the request itself more than what its retry weighs. */
  lemma {:induction false} FirstFailureDrops(cfg: Config, failed: set<string>, r: Request)
    requires Key(cfg, r) !in failed
    ensures Weight(cfg, failed + {Key(cfg, r)})(r) + 1 <= Weight(cfg, failed)(r)
  {
    var lower := Pow(Base(cfg), 2 * LevelsLeft(r));
    PowAtLeastOne(Base(cfg), 2 * LevelsLeft(r));
    assert Base(cfg) * lower >= 2 * lower;
  }

  lemma {:induction false} FailureLowers(cfg: Config, failed: set<string>, more: set<string>, r: Request)
    requires failed <= more
    ensures Weight(cfg, more)(r) <= Weight(cfg, failed)(r)
  {
    var e := 2 * LevelsLeft(r);
    PowAtLeastOne(Base(cfg), e);
    assert Base(cfg) * Pow(Base(cfg), e) >= 1 * Pow(Base(cfg), e);
  }

  /** The children of one parse weigh less, all together, than their parent. */
  lemma {:induction false} ChildrenWeighLess(cfg: Config, failed: set<string>, r: Request, children: seq<Request>)
    requires r.Check() && Limited(cfg, r.task)
    requires |children| <= cfg.maxChildren && forall child | child in children :: IsChild(r, child)
    ensures Sum(Weight(cfg, failed), children) + 2 <= Weight(cfg, failed)(r)
  {
    var b, e := Base(cfg), 2 * LevelsLeft(r) - 1;
    var one := Pow(b, e);
    PowAtLeastOne(b, e);
    forall i | 0 <= i < |children|
      ensures Weight(cfg, failed)(children[i]) <= one
    {
      ChildWeight(cfg, failed, r, children[i]);
    }
    SumBound(Weight(cfg, failed), children, one);
    Widen(|children|, cfg.maxChildren, one);
    assert Pow(b, e + 1) <= Weight(cfg, failed)(r) by {
      FailureLowers(cfg, failed, failed + {Key(cfg, r)}, r);
    }
  }

  lemma {:induction false} Widen(n: nat, max: nat, one: nat)
    requires n <= max && one >= 1
    ensures n * one + 2 <= (max + 2) * one
  {
    assert n * one <= max * one;
  }

  lemma {:induction false} ChildWeight(cfg: Config, failed: set<string>, r: Request, child: Request)
    requires r.Check() && r.task.maxDepth < MAX_INT64 && IsChild(r, child)
    ensures Weight(cfg, failed)(child) <= Pow(Base(cfg), 2 * LevelsLeft(r) - 1)
  {
    assert LevelsLeft(child) == LevelsLeft(r) - 1;
    FailureLowers(cfg, {}, failed, child);
  }

  // ---------------------------------------------------------------- the potential of a state

  function PusherWeight(cfg: Config, failed: set<string>): seq<Request> -> nat {
    (p: seq<Request>) => Sum(Weight(cfg, failed), p)
  }

  /** A pulled request has paid one unit for its consumption. */
  function HeldWeight(cfg: Config, failed: set<string>, w: Worker): nat {
    if w.AtPull? || w.AtOut? then 0
    else if w.AtRepush? then Weight(cfg, failed)(w.r)
    else Spent(Weight(cfg, failed)(w.r))
  }

  function WorkerWeight(cfg: Config, failed: set<string>): Worker -> nat {
    (w: Worker) => HeldWeight(cfg, failed, w)
  }

  function Spent(n: nat): nat { if n > 0 then n - 1 else 0 }

  function SchedWeight(cfg: Config, failed: set<string>, s: S.Sched): nat {
    Sum(Weight(cfg, failed), s.pri) + Sum(Weight(cfg, failed), s.reg)
    + if s.hand.Some? then Weight(cfg, failed)(s.hand.value) else 0
  }

  function Potential(cfg: Config, c: Crawl): nat {
    var failed := c.failures.Keys;
    Sum(PusherWeight(cfg, failed), c.pushers) + SchedWeight(cfg, failed, c.sched)
    + Sum(WorkerWeight(cfg, failed), c.workers)
  }

  function Consumed(c: Crawl): nat { |c.sched.delivered| }

  /** Position in the pipeline: what remains to be done without spending potential. */
  function WorkerRank(): Worker -> nat {
    (w: Worker) =>
      match w
      case AtPull => 0
      case AtCheck(_) => 12
      case AtHasVisited(_) => 11
      case AtStoreVisited(_) => 10
      case AtFetch(_) => 9
      case AtParse(_) => 8
      case AtUnvisit(_) => 8
      case AtFailureLock(_) => 7
      case AtRepush(_) => 4
      case AtOut(items) => items + 1
  }

  function PusherRank(): seq<Request> -> nat { (p: seq<Request>) => 4 * |p| }

  function SchedRank(s: S.Sched): nat {
    2 * (|s.pri| + |s.reg|) + (if s.hand.Some? then 1 else 0) + (if s.selecting then 0 else 1)
  }

  function Rank(c: Crawl): nat {
    Sum(PusherRank(), c.pushers) + SchedRank(c.sched) + Sum(WorkerRank(), c.workers) + c.unhandled
  }

  /** More than one unit of potential can add to the rank. */
  function Rate(cfg: Config): nat { 4 * cfg.maxChildren + cfg.maxItems + 14 }

  /** One step never raises consumption plus potential, and always lowers the weighted measure. */
  ghost predicate Progresses(cfg: Config, c: Crawl, d: Crawl) {
    && Consumed(d) + Potential(cfg, d) <= Consumed(c) + Potential(cfg, c)
    && Potential(cfg, d) <= Potential(cfg, c)
    && (if Potential(cfg, d) == Potential(cfg, c) then Rank(d) < Rank(c) else Rank(d) < Rank(c) + Rate(cfg))
  }

  /** Depths of this task's requests stay clear of the int64 ceiling, or no page has children at all. */
  predicate Limited(cfg: Config, task: Task) {
    task.maxDepth < MAX_INT64 || cfg.maxChildren == 0
  }

  lemma {:induction false} TopWeighs(cfg: Config, failed: set<string>, s: S.Sched)
    requires S.Enabled(s, S.Top)
    ensures var t := S.Next(s, S.Top);
            && SchedWeight(cfg, failed, t) <= SchedWeight(cfg, failed, s)
            && SchedRank(t) < SchedRank(s)
            && t.delivered == s.delivered
  {
    var f := Weight(cfg, failed);
    var p := S.Pick(s);
    assert SchedWeight(cfg, failed, p) == SchedWeight(cfg, failed, s) by {
      if s.hand.None? && |s.pri| > 0 {
        SumUncons(f, s.pri);
      } else if s.hand.None? && |s.reg| > 0 {
        SumUncons(f, s.reg);
      }
    }
  }

  lemma {:induction false} SchedulingProgresses(cfg: Config, c: Crawl)
    requires Enabled(cfg, c, Scheduling)
    ensures Progresses(cfg, c, Next(cfg, c, Scheduling))
  {
    TopWeighs(cfg, c.failures.Keys, c.sched);
  }

  lemma {:induction false} AcceptWeighs(cfg: Config, failed: set<string>, s: S.Sched, r: Request)
    requires s.selecting
    ensures var t := S.Next(s, S.Recv(r));
            && SchedWeight(cfg, failed, t) == SchedWeight(cfg, failed, s) + Weight(cfg, failed)(r)
            && SchedRank(t) == SchedRank(s) + 3
            && t.delivered == s.delivered
  {
    SumSnoc(Weight(cfg, failed), s.pri, r);
    SumSnoc(Weight(cfg, failed), s.reg, r);
  }

  lemma {:induction false} PushNextProgresses(cfg: Config, c: Crawl, i: nat)
    requires Enabled(cfg, c, PushNext(i))
    ensures Progresses(cfg, c, Next(cfg, c, PushNext(i)))
  {
    var failed := c.failures.Keys;
    var p := c.pushers[i];
    AcceptWeighs(cfg, failed, c.sched, p[0]);
    SumUncons(Weight(cfg, failed), p);
    SumUpdate(PusherWeight(cfg, failed), c.pushers, i, p[1..]);
    SumUpdate(PusherRank(), c.pushers, i, p[1..]);
  }

  lemma {:induction false} RepushProgresses(cfg: Config, c: Crawl, w: nat)
    requires Enabled(cfg, c, Repush(w))
    ensures Progresses(cfg, c, Next(cfg, c, Repush(w)))
  {
    var failed := c.failures.Keys;
    AcceptWeighs(cfg, failed, c.sched, c.workers[w].r);
    SumUpdate(WorkerWeight(cfg, failed), c.workers, w, AtPull);
    SumUpdate(WorkerRank(), c.workers, w, AtPull);
  }

  lemma {:induction false} PullProgresses(cfg: Config, c: Crawl, w: nat)
    requires Enabled(cfg, c, Pull(w))
    ensures Progresses(cfg, c, Next(cfg, c, Pull(w)))
  {
    var failed := c.failures.Keys;
    var r := c.sched.hand.value;
    WeightPositive(cfg, failed, r);
    SumUpdate(WorkerWeight(cfg, failed), c.workers, w, AtCheck(r));
    SumUpdate(WorkerRank(), c.workers, w, AtCheck(r));
  }

  /** A worker step that leaves the failure table, the scheduler and the Push goroutines alone. */
  lemma {:induction false} LocalProgresses(cfg: Config, c: Crawl, step: Step, to: Worker)
    requires Enabled(cfg, c, step) && Mover(step).Some?
    requires var d := Next(cfg, c, step);
             && d.workers == c.workers[step.w := to] && d.sched == c.sched && d.pushers == c.pushers
             && d.failures == c.failures
             && WorkerWeight(cfg, c.failures.Keys)(to) <= WorkerWeight(cfg, c.failures.Keys)(c.workers[step.w])
             && WorkerRank()(to) + d.unhandled < WorkerRank()(c.workers[step.w]) + c.unhandled
    ensures Progresses(cfg, c, Next(cfg, c, step))
  {
    SumUpdate(WorkerWeight(cfg, c.failures.Keys), c.workers, step.w, to);
    SumUpdate(WorkerRank(), c.workers, step.w, to);
  }

  /** The steps LocalProgresses covers directly. */
  predicate Local(c: Crawl, step: Step) {
    match step
    case Check(_) => true
    case HasVisited(_) => true
    case StoreVisited(_) => true
    case Fetch(_, _) => true
    case Unvisit(_) => true
    case HandResult(_) => true
    case Parse(_, result) => result.ParseError?
    case _ => false
  }

  lemma {:induction false} LocalStepProgresses(cfg: Config, c: Crawl, step: Step)
    requires Enabled(cfg, c, step) && Local(c, step)
    ensures Progresses(cfg, c, Next(cfg, c, step))
  {
    var d := Next(cfg, c, step);
    MoverMoves(cfg, c, step);
    LocalKeeps(cfg, c, step);
    LocalDescends(cfg, c, step);
    LocalProgresses(cfg, c, step, d.workers[step.w]);
  }

  lemma {:induction false} LocalKeeps(cfg: Config, c: Crawl, step: Step)
    requires Enabled(cfg, c, step) && Local(c, step)
    ensures var d := Next(cfg, c, step);
            d.sched == c.sched && d.pushers == c.pushers && d.failures == c.failures
            && (!step.HandResult? ==> d.unhandled == c.unhandled)
            && (step.HandResult? ==> c.unhandled == 0 && d.unhandled == c.workers[step.w].items)
  {
  }

  lemma {:induction false} LocalDescends(cfg: Config, c: Crawl, step: Step)
    requires Enabled(cfg, c, step) && Local(c, step)
    ensures var from, to := c.workers[step.w], Next(cfg, c, step).workers[step.w];
            && (to.AtPull? || (!from.AtRepush? && !from.AtPull? && !from.AtOut?
                               && !to.AtRepush? && !to.AtOut? && to.r == from.r))
            && WorkerRank()(to) < WorkerRank()(from)
            && (step.HandResult? ==> from.AtOut? && to.AtPull?)
  {
  }

  /** A parse swaps the parent's share of the potential for its children's. */
  lemma {:induction false} ParseSwapsPotential(cfg: Config, c: Crawl, w: nat, result: Parsed)
    requires Enabled(cfg, c, Parse(w, result)) && result.ParseResult?
    ensures var failed := c.failures.Keys;
            Potential(cfg, Next(cfg, c, Parse(w, result))) + HeldWeight(cfg, failed, c.workers[w])
            == Potential(cfg, c) + Sum(Weight(cfg, failed), result.requests)
  {
    var failed := c.failures.Keys;
    ParseSpawns(cfg, c, w, result);
    SpawnedWeigh(PusherWeight(cfg, failed), c.pushers, result.requests);
    SumUpdate(WorkerWeight(cfg, failed), c.workers, w, AtOut(result.items));
    assert WorkerWeight(cfg, failed)(AtOut(result.items)) == 0;
  }

  lemma {:induction false} ParseLowersPotential(cfg: Config, c: Crawl, w: nat, result: Parsed)
    requires Inv(cfg, c) && Enabled(cfg, c, Parse(w, result)) && result.ParseResult?
    requires Limited(cfg, c.workers[w].r.task)
    ensures Potential(cfg, Next(cfg, c, Parse(w, result))) < Potential(cfg, c)
  {
    ParseSwapsPotential(cfg, c, w, result);
    assert InDepth(c.workers[w]);
    ChildrenWeighLess(cfg, c.failures.Keys, c.workers[w].r, result.requests);
  }

  lemma {:induction false} ParseRaisesRank(cfg: Config, c: Crawl, w: nat, result: Parsed)
    requires Enabled(cfg, c, Parse(w, result)) && result.ParseResult?
    ensures Rank(Next(cfg, c, Parse(w, result))) < Rank(c) + Rate(cfg)
  {
    ParseSpawns(cfg, c, w, result);
    SpawnedWeigh(PusherRank(), c.pushers, result.requests);
    SumUpdate(WorkerRank(), c.workers, w, AtOut(result.items));
  }

  lemma {:induction false} ParseProgresses(cfg: Config, c: Crawl, w: nat, result: Parsed)
    requires Inv(cfg, c) && Enabled(cfg, c, Parse(w, result)) && result.ParseResult?
    requires Limited(cfg, c.workers[w].r.task)
    ensures Progresses(cfg, c, Next(cfg, c, Parse(w, result)))
  {
    ParseLowersPotential(cfg, c, w, result);
    ParseRaisesRank(cfg, c, w, result);
    assert Next(cfg, c, Parse(w, result)).sched == c.sched;
  }

  /** A result without requests starts no goroutine, which weighs the same as an empty one. */
  lemma {:induction false} SpawnedWeigh(f: seq<Request> -> nat, pushers: seq<seq<Request>>, children: seq<Request>)
    requires f([]) == 0
    ensures Sum(f, if children == [] then pushers else pushers + [children]) == Sum(f, pushers) + f(children)
  {
    SumSnoc(f, pushers, children);
  }

  lemma {:induction false} ParseSpawns(cfg: Config, c: Crawl, w: nat, result: Parsed)
    requires Enabled(cfg, c, Parse(w, result)) && result.ParseResult?
    ensures var d := Next(cfg, c, Parse(w, result));
            && d.workers == c.workers[w := AtOut(result.items)] && d.sched == c.sched
            && d.failures == c.failures && d.unhandled == c.unhandled
            && d.pushers == if result.requests == [] then c.pushers else c.pushers + [result.requests]
  {
  }

  /** A larger failure table lowers every part of the potential. */
  lemma {:induction false} FailuresLowerPotential(cfg: Config, failed: set<string>, more: set<string>, c: Crawl)
    requires failed <= more
    ensures SchedWeight(cfg, more, c.sched) <= SchedWeight(cfg, failed, c.sched)
    ensures Sum(PusherWeight(cfg, more), c.pushers) <= Sum(PusherWeight(cfg, failed), c.pushers)
    ensures Sum(WorkerWeight(cfg, more), c.workers) <= Sum(WorkerWeight(cfg, failed), c.workers)
  {
    forall r
      ensures Weight(cfg, more)(r) <= Weight(cfg, failed)(r)
    {
      FailureLowers(cfg, failed, more, r);
    }
    SumMonotone(Weight(cfg, more), Weight(cfg, failed), c.sched.pri);
    SumMonotone(Weight(cfg, more), Weight(cfg, failed), c.sched.reg);
    forall i | 0 <= i < |c.pushers|
      ensures PusherWeight(cfg, more)(c.pushers[i]) <= PusherWeight(cfg, failed)(c.pushers[i])
    {
      SumMonotone(Weight(cfg, more), Weight(cfg, failed), c.pushers[i]);
    }
    SumMonotone(PusherWeight(cfg, more), PusherWeight(cfg, failed), c.pushers);
    SumMonotone(WorkerWeight(cfg, more), WorkerWeight(cfg, failed), c.workers);
  }

  lemma {:induction false} SecondFailureProgresses(cfg: Config, c: Crawl, w: nat)
    requires Enabled(cfg, c, SetFailure(w)) && Key(cfg, c.workers[w].r) in c.failures
    ensures Progresses(cfg, c, Next(cfg, c, SetFailure(w)))
  {
    SumUpdate(WorkerRank(), c.workers, w, AtPull);
    SumUpdate(WorkerWeight(cfg, c.failures.Keys), c.workers, w, AtPull);
  }

  lemma {:induction false} FirstFailureProgresses(cfg: Config, c: Crawl, w: nat)
    requires Enabled(cfg, c, SetFailure(w)) && Key(cfg, c.workers[w].r) !in c.failures
    ensures Progresses(cfg, c, Next(cfg, c, SetFailure(w)))
  {
    var r := c.workers[w].r;
    SumUpdate(WorkerRank(), c.workers, w, AtRepush(r));
    assert Next(cfg, c, SetFailure(w)).failures.Keys == c.failures.Keys + {Key(cfg, r)};
    FailuresLowerPotential(cfg, c.failures.Keys, c.failures.Keys + {Key(cfg, r)}, c);
    FirstFailureOffsets(cfg, c.failures.Keys, c.workers, w, r);
  }

  /** Moving the failed worker to its retry does not raise the workers' share of the potential. */
  lemma {:induction false} FirstFailureOffsets(cfg: Config, failed: set<string>, ws: seq<Worker>, w: nat, r: Request)
    requires w < |ws| && ws[w] == AtFailureLock(r) && Key(cfg, r) !in failed
    ensures Sum(WorkerWeight(cfg, failed + {Key(cfg, r)}), ws[w := AtRepush(r)]) <= Sum(WorkerWeight(cfg, failed), ws)
  {
    var more := failed + {Key(cfg, r)};
    FirstFailureDrops(cfg, failed, r);
    forall i | 0 <= i < |ws|
      ensures WorkerWeight(cfg, more)(ws[w := AtRepush(r)][i]) <= WorkerWeight(cfg, failed)(ws[i])
    {
      if i != w && !ws[i].AtPull? && !ws[i].AtOut? {
        FailureLowers(cfg, failed, more, ws[i].r);
      }
    }
    SumPointwise(WorkerWeight(cfg, more), WorkerWeight(cfg, failed), ws[w := AtRepush(r)], ws);
  }

  lemma {:induction false} SumPointwise<T>(f: T -> nat, g: T -> nat, s: seq<T>, t: seq<T>)
    requires |s| == |t| && forall i :: 0 <= i < |s| ==> f(s[i]) <= g(t[i])
    ensures Sum(f, s) <= Sum(g, t)
  {
    if |s| == 0 {
    } else {
      SumPointwise(f, g, s[..|s| - 1], t[..|t| - 1]);
    }
  }

  // ---------------------------------------------------------------- every request has an origin

  /** A request a worker holds was accepted by the scheduler, so it was once handed to a Push. */
  lemma {:induction false} HeldWasCreated(cfg: Config, c: Crawl, w: nat)
    requires Inv(cfg, c) && w < |c.workers| && !c.workers[w].AtPull? && !c.workers[w].AtRepush? && !c.workers[w].AtOut?
    ensures c.workers[w].r in c.log.created
  {
    var q := c.workers[w].r;
    assert WorkAccounted(c, q) && PushAccounted(c, q);
    SumMember(HeldOf(q), c.workers, w);
    assert q in c.sched.delivered;
    DeliveredWasAccepted(c.sched, q);
  }

  lemma {:induction false} DeliveredWasAccepted(s: S.Sched, q: Request)
    requires S.Inv(s) && q in s.delivered
    ensures q in s.accepted
  {
    OnlyPasses(S.Passes(), s.left);
    var kind := if q.priority > 0 then S.Urgent() else S.Ordinary();
    InOnly(kind, s.left, q);
    assert q in Only(kind, s.accepted);
    OnlyPasses(kind, s.accepted);
  }

  lemma {:induction false} InOnly(p: Request -> bool, s: seq<Request>, q: Request)
    requires q in s && p(q)
    ensures q in Only(p, s)
  {
    if q != s[|s| - 1] {
      assert s == s[..|s| - 1] + [s[|s| - 1]];
      InOnly(p, s[..|s| - 1], q);
    }
  }

  /** Every request ever handed to a Push belongs to a task of this kind. */
  ghost predicate Tasked(c: Crawl, kind: Task -> bool) {
    forall r | r in c.log.created :: kind(r.task)
  }

  ghost predicate Shallow(cfg: Config, c: Crawl) {
    Tasked(c, (t: Task) => Limited(cfg, t))
  }

  /** Only a parse and a first failure add to what was handed to a Push. */
  lemma {:induction false} CreatedDelta(cfg: Config, c: Crawl, step: Step)
    requires Enabled(cfg, c, step)
    ensures Next(cfg, c, step).log.created ==
            if step.Parse? && step.result.ParseResult? then c.log.created + multiset(step.result.requests)
            else if step.SetFailure? && Key(cfg, c.workers[step.w].r) !in c.failures
            then c.log.created + multiset{c.workers[step.w].r}
            else c.log.created
  {
  }

  /** Children and retries stay with the task they came from. */
  lemma {:induction false} StepKeepsTasked(cfg: Config, c: Crawl, step: Step, kind: Task -> bool)
    requires Inv(cfg, c) && Tasked(c, kind) && Enabled(cfg, c, step)
    ensures Tasked(Next(cfg, c, step), kind)
  {
    CreatedDelta(cfg, c, step);
    if step.Parse? || step.SetFailure? {
      HeldWasCreated(cfg, c, step.w);
      var d, held := Next(cfg, c, step), c.workers[step.w].r;
      assert kind(held.task);
      forall r | r in d.log.created
        ensures kind(r.task)
      {
        if r !in c.log.created && step.Parse? {
          assert r in step.result.requests;
          assert IsChild(held, r);
        }
      }
    }
  }

  lemma {:induction false} StepKeepsShallow(cfg: Config, c: Crawl, step: Step)
    requires Inv(cfg, c) && Shallow(cfg, c) && Enabled(cfg, c, step)
    ensures Shallow(cfg, Next(cfg, c, step))
  {
    StepKeepsTasked(cfg, c, step, (t: Task) => Limited(cfg, t));
  }

  lemma {:induction false} StepProgresses(cfg: Config, c: Crawl, step: Step)
    requires Inv(cfg, c) && Shallow(cfg, c) && Enabled(cfg, c, step)
    ensures Progresses(cfg, c, Next(cfg, c, step))
  {
    match step
    case Scheduling => SchedulingProgresses(cfg, c);
    case PushNext(i) => PushNextProgresses(cfg, c, i);
    case Repush(w) => RepushProgresses(cfg, c, w);
    case Pull(w) => PullProgresses(cfg, c, w);
    case SetFailure(w) =>
      if Key(cfg, c.workers[w].r) in c.failures {
        SecondFailureProgresses(cfg, c, w);
      } else {
        FirstFailureProgresses(cfg, c, w);
      }
    case SaveItem =>
    case Parse(w, result) =>
      if result.ParseError? {
        LocalStepProgresses(cfg, c, step);
      } else {
        HeldWasCreated(cfg, c, w);
        ParseProgresses(cfg, c, w, result);
      }
    case _ =>
      LocalStepProgresses(cfg, c, step);
  }

  // ---------------------------------------------------------------- the bound

  /** Potential at the given rate, plus rank: what every single step lowers. */
  function Measure(cfg: Config, c: Crawl): nat {
    Charge(Rate(cfg), Potential(cfg, c)) + Rank(c)
  }

  function Charge(rate: nat, amount: nat): nat { rate * amount }

  lemma {:induction false} StepLowersMeasure(cfg: Config, c: Crawl, step: Step)
    requires Inv(cfg, c) && Shallow(cfg, c) && Enabled(cfg, c, step)
    ensures Measure(cfg, Next(cfg, c, step)) < Measure(cfg, c)
  {
    StepProgresses(cfg, c, step);
    Pay(Rate(cfg), Potential(cfg, c), Potential(cfg, Next(cfg, c, step)), Rank(c), Rank(Next(cfg, c, step)));
  }

  lemma {:induction false} Pay(rate: nat, before: nat, after: nat, rank: nat, rank': nat)
    requires after <= before
    requires if after == before then rank' < rank else rank' < rank + rate
    ensures Charge(rate, after) + rank' < Charge(rate, before) + rank
  {
    if after < before {
      assert rate * (after + 1) <= rate * before;
    }
  }

  lemma {:induction false} RunProgresses(cfg: Config, c: Crawl, steps: seq<Step>)
    requires Inv(cfg, c) && Shallow(cfg, c) && Exec(cfg, c, steps).Some?
    ensures var d := Exec(cfg, c, steps).value;
            && Inv(cfg, d) && Shallow(cfg, d)
            && Consumed(d) + Potential(cfg, d) <= Consumed(c) + Potential(cfg, c)
            && |steps| + Measure(cfg, d) <= Measure(cfg, c)
  {
    if |steps| == 0 {
    } else {
      var front, step := steps[..|steps| - 1], steps[|steps| - 1];
      RunProgresses(cfg, c, front);
      var before := Exec(cfg, c, front).value;
      StepKeepsInv(cfg, before, step);
      StepKeepsShallow(cfg, before, step);
      StepProgresses(cfg, before, step);
      StepLowersMeasure(cfg, before, step);
    }
  }

  /** What one seed can cost: (B + 2) ^ (2 * (MaxDepth + 1 - Depth) + 1). */
  function SeedBudget(cfg: Config): Request -> nat {
    (r: Request) => Pow(Base(cfg), 2 * LevelsLeft(r) + 1)
  }

  function StepBudget(cfg: Config, seeds: seq<Request>): nat {
    Charge(Rate(cfg), Sum(SeedBudget(cfg), seeds)) + 4 * |seeds| + 1
  }

  /** Whatever the interleaving, the number of workers and the Reload settings: workers consume at most
      the sum of the seeds' budgets, and the crawl makes at most a fixed number of steps. */
  lemma {:induction false} CrawlIsBounded(
    cfg: Config, seeds: seq<Request>, workCount: nat, steps: seq<Step>, end: Crawl)
    requires Exec(cfg, Start(seeds, workCount), steps) == Some(end)
    requires forall r | r in seeds :: Limited(cfg, r.task)
    ensures Consumed(end) <= Sum(SeedBudget(cfg), seeds)
    ensures |steps| <= StepBudget(cfg, seeds)
  {
    StartFacts(cfg, seeds, workCount);
    RunIsBounded(cfg, Start(seeds, workCount), steps, end);
  }

  /** For one seed within its depth limit the bound reads (B + 2) ^ (2 * (MaxDepth + 1 - Depth) + 1). */
  lemma {:induction false} OneSeedIsBounded(
    cfg: Config, seed: Request, workCount: nat, steps: seq<Step>, end: Crawl)
    requires Exec(cfg, Start([seed], workCount), steps) == Some(end)
    requires seed.depth <= seed.task.maxDepth < MAX_INT64
    ensures |end.sched.delivered| <= Pow(cfg.maxChildren + 2, 2 * (seed.task.maxDepth + 1 - seed.depth) + 1)
  {
    CrawlIsBounded(cfg, [seed], workCount, steps, end);
    SumOne(SeedBudget(cfg), seed);
  }

  lemma {:induction false} StartFacts(cfg: Config, seeds: seq<Request>, workCount: nat)
    requires forall r | r in seeds :: Limited(cfg, r.task)
    ensures var c := Start(seeds, workCount);
            && Inv(cfg, c) && Shallow(cfg, c) && Consumed(c) == 0
            && Potential(cfg, c) == Sum(SeedBudget(cfg), seeds)
            && Measure(cfg, c) == StepBudget(cfg, seeds)
  {
    StartInv(cfg, seeds, workCount);
    StartPotential(cfg, seeds, workCount);
    StartRank(seeds, workCount);
  }

  /** The bound from any state of a crawl. */
  lemma {:induction false} RunIsBounded(cfg: Config, c: Crawl, steps: seq<Step>, end: Crawl)
    requires Inv(cfg, c) && Shallow(cfg, c) && Exec(cfg, c, steps) == Some(end)
    ensures Consumed(end) <= Consumed(c) + Potential(cfg, c)
    ensures |steps| <= Measure(cfg, c)
  {
    RunProgresses(cfg, c, steps);
  }

  lemma {:induction false} StartPotential(cfg: Config, seeds: seq<Request>, workCount: nat)
    ensures Potential(cfg, Start(seeds, workCount)) == Sum(SeedBudget(cfg), seeds)
  {
    var c := Start(seeds, workCount);
    assert c.failures.Keys == {};
    SumNothing(WorkerWeight(cfg, {}), c.workers);
    SumOne(PusherWeight(cfg, {}), seeds);
    SeedsWeigh(cfg, seeds);
  }

  lemma {:induction false} SeedsWeigh(cfg: Config, seeds: seq<Request>)
    ensures Sum(Weight(cfg, {}), seeds) == Sum(SeedBudget(cfg), seeds)
  {
    SumPointwise(SeedBudget(cfg), Weight(cfg, {}), seeds, seeds);
    SumPointwise(Weight(cfg, {}), SeedBudget(cfg), seeds, seeds);
  }

  lemma {:induction false} StartRank(seeds: seq<Request>, workCount: nat)
    ensures Rank(Start(seeds, workCount)) == 4 * |seeds| + 1
  {
    var c := Start(seeds, workCount);
    SumNothing(WorkerRank(), c.workers);
    SumOne(PusherRank(), seeds);
  }
}
