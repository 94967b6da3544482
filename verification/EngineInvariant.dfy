/** What every step of the crawl keeps: accounting of requests, the failure lock, the depth bound and
    the single retry per key. */
module EngineInvariant {
  import opened Spider
  import opened Sums
  import opened Engine
  import S = Scheduler

  // ---------------------------------------------------------------- accounting, one request at a time

  function PendingOf(q: Request): seq<Request> -> nat { (p: seq<Request>) => multiset(p)[q] }

  /** A worker holds a request from the pull until its outcome is decided. */
  function HeldOf(q: Request): Worker -> nat {
    (w: Worker) => if w.AtPull? || w.AtRepush? || w.AtOut? || w.r != q then 0 else 1
  }

  /** A retry decided on, but not yet accepted by the scheduler. */
  function UnsentOf(q: Request): Worker -> nat {
    (w: Worker) => if w.AtRepush? && w.r == q then 1 else 0
  }

  /** Everything handed to a Push is waiting to be sent or was accepted by the scheduler. */
  ghost predicate PushAccounted(c: Crawl, q: Request) {
    c.log.created[q] ==
      Sum(PendingOf(q), c.pushers) + Sum(UnsentOf(q), c.workers) + multiset(c.sched.accepted)[q]
  }

  function Ended(log: Log, q: Request): nat {
    log.rejected[q] + log.skipped[q] + log.failed[q] + log.broken[q] + log.parsed[q]
  }

  /** Everything delivered is held by one worker or ended in exactly one way. */
  ghost predicate WorkAccounted(c: Crawl, q: Request) {
    multiset(c.sched.delivered)[q] == Sum(HeldOf(q), c.workers) + Ended(c.log, q)
  }

  /** The worker whose program counter a step moves, if any. */
  function Mover(step: Step): Option<nat> {
    match step
    case Scheduling => None
    case PushNext(_) => None
    case SaveItem => None
    case _ => Some(step.w)
  }

  lemma {:induction false} MoverMoves(cfg: Config, c: Crawl, step: Step)
    requires Enabled(cfg, c, step)
    ensures var d := Next(cfg, c, step);
            match Mover(step)
            case None => d.workers == c.workers
            case Some(w) => w < |c.workers| && |d.workers| == |c.workers| && d.workers == c.workers[w := d.workers[w]]
  {
  }

  /** What moving worker w does to the two sides of PushAccounted. */
  ghost predicate PushBalances(c: Crawl, d: Crawl, w: nat, step: Step, q: Request)
    requires w < |c.workers| && w < |d.workers|
  {
    var children := if step.Parse? && step.result.ParseResult? then step.result.requests else [];
    && multiset(d.sched.accepted)[q] + UnsentOf(q)(d.workers[w]) + c.log.created[q] + multiset(children)[q]
       == multiset(c.sched.accepted)[q] + UnsentOf(q)(c.workers[w]) + d.log.created[q]
    && d.pushers == if children != [] then c.pushers + [children] else c.pushers
  }

  lemma {:induction false} PushDeltaQuiet(cfg: Config, c: Crawl, w: nat, step: Step, q: Request)
    requires Enabled(cfg, c, step) && Mover(step) == Some(w) && !step.Parse? && !step.SetFailure? && !step.Repush?
    ensures PushBalances(c, Next(cfg, c, step), w, step, q)
  {
    assert Next(cfg, c, step).log.created == c.log.created;
    assert Next(cfg, c, step).sched.accepted == c.sched.accepted;
  }

  lemma {:induction false} PushDelta(cfg: Config, c: Crawl, w: nat, step: Step, q: Request)
    requires Enabled(cfg, c, step) && Mover(step) == Some(w)
    ensures PushBalances(c, Next(cfg, c, step), w, step, q)
  {
    if !step.Parse? && !step.SetFailure? && !step.Repush? {
      PushDeltaQuiet(cfg, c, w, step, q);
    }
  }

  lemma {:induction false} PushNextKeepsPushAccounted(cfg: Config, c: Crawl, i: nat, q: Request)
    requires PushAccounted(c, q) && Enabled(cfg, c, PushNext(i))
    ensures PushAccounted(Next(cfg, c, PushNext(i)), q)
  {
    var p := c.pushers[i];
    SumUpdate(PendingOf(q), c.pushers, i, p[1..]);
    assert p == [p[0]] + p[1..];
  }

  lemma {:induction false} StepKeepsPushAccounted(cfg: Config, c: Crawl, step: Step, q: Request)
    requires PushAccounted(c, q) && Enabled(cfg, c, step)
    ensures PushAccounted(Next(cfg, c, step), q)
  {
    if step.PushNext? {
      PushNextKeepsPushAccounted(cfg, c, step.i, q);
    } else if Mover(step).Some? {
      var d := Next(cfg, c, step);
      MoverMoves(cfg, c, step);
      SumUpdate(UnsentOf(q), c.workers, step.w, d.workers[step.w]);
      PushDelta(cfg, c, step.w, step, q);
      if step.Parse? && step.result.ParseResult? {
        SumSnoc(PendingOf(q), c.pushers, step.result.requests);
      }
    }
  }

  /** What moving worker w does to the two sides of WorkAccounted. */
  ghost predicate WorkBalances(c: Crawl, d: Crawl, w: nat, q: Request)
    requires w < |c.workers| && w < |d.workers|
  {
    multiset(d.sched.delivered)[q] + HeldOf(q)(c.workers[w]) + Ended(c.log, q)
    == multiset(c.sched.delivered)[q] + HeldOf(q)(d.workers[w]) + Ended(d.log, q)
  }

  lemma {:induction false} WorkDeltaUndecided(cfg: Config, c: Crawl, w: nat, step: Step, q: Request)
    requires Enabled(cfg, c, step) && Mover(step) == Some(w)
    requires !step.Check? && !step.HasVisited? && !step.Parse? && !step.SetFailure?
    ensures WorkBalances(c, Next(cfg, c, step), w, q)
  {
    assert Next(cfg, c, step).log == c.log;
  }

  lemma {:induction false} WorkDeltaFiltered(cfg: Config, c: Crawl, w: nat, step: Step, q: Request)
    requires Enabled(cfg, c, step) && Mover(step) == Some(w)
    requires step.Check? || step.HasVisited?
    ensures WorkBalances(c, Next(cfg, c, step), w, q)
  {
  }

  lemma {:induction false} WorkDeltaFinished(cfg: Config, c: Crawl, w: nat, step: Step, q: Request)
    requires Enabled(cfg, c, step) && Mover(step) == Some(w)
    requires step.Parse? || step.SetFailure?
    ensures WorkBalances(c, Next(cfg, c, step), w, q)
  {
  }

  lemma {:induction false} WorkDelta(cfg: Config, c: Crawl, w: nat, step: Step, q: Request)
    requires Enabled(cfg, c, step) && Mover(step) == Some(w)
    ensures WorkBalances(c, Next(cfg, c, step), w, q)
  {
    if step.Check? || step.HasVisited? {
      WorkDeltaFiltered(cfg, c, w, step, q);
    } else if step.Parse? || step.SetFailure? {
      WorkDeltaFinished(cfg, c, w, step, q);
    } else {
      WorkDeltaUndecided(cfg, c, w, step, q);
    }
  }

  lemma {:induction false} StepKeepsWorkAccounted(cfg: Config, c: Crawl, step: Step, q: Request)
    requires WorkAccounted(c, q) && Enabled(cfg, c, step)
    ensures WorkAccounted(Next(cfg, c, step), q)
  {
    var d := Next(cfg, c, step);
    MoverMoves(cfg, c, step);
    if Mover(step).Some? {
      SumUpdate(HeldOf(q), c.workers, step.w, d.workers[step.w]);
      WorkDelta(cfg, c, step.w, step, q);
    }
  }

  // ---------------------------------------------------------------- lock, depth, retries

  /** The lock has a holder exactly when that worker is blocked in Push under it. */
  ghost predicate LockHeld(c: Crawl) {
    && (forall w: nat | w < |c.workers| :: c.workers[w].AtRepush? <==> c.lockedBy == Some(w))
    && (c.lockedBy.Some? ==> c.lockedBy.value < |c.workers|)
  }

  predicate InDepth(w: Worker) {
    !w.AtPull? && !w.AtOut? ==> w.r.Check()
  }

  /** A request past the pull has passed the depth check, so the worker's own check rejects nothing. */
  ghost predicate DepthSafe(c: Crawl) {
    && (forall w: nat | w < |c.workers| :: InDepth(c.workers[w]))
    && c.log.rejected == multiset{}
  }

  lemma {:induction false} StepKeepsLockHeld(cfg: Config, c: Crawl, step: Step)
    requires LockHeld(c) && Enabled(cfg, c, step)
    ensures LockHeld(Next(cfg, c, step))
  {
    MoverMoves(cfg, c, step);
  }

  lemma {:induction false} MoverInDepth(cfg: Config, c: Crawl, step: Step, w: nat)
    requires DepthSafe(c) && S.Inv(c.sched) && Enabled(cfg, c, step) && Mover(step) == Some(w)
    ensures InDepth(Next(cfg, c, step).workers[w])
  {
    assert InDepth(c.workers[w]);
  }

  lemma {:induction false} NothingRejected(cfg: Config, c: Crawl, step: Step)
    requires DepthSafe(c) && Enabled(cfg, c, step)
    ensures Next(cfg, c, step).log.rejected == multiset{}
  {
    if step.Check? {
      assert InDepth(c.workers[step.w]);
    }
  }

  lemma {:induction false} StepKeepsDepthSafe(cfg: Config, c: Crawl, step: Step)
    requires DepthSafe(c) && S.Inv(c.sched) && Enabled(cfg, c, step)
    ensures DepthSafe(Next(cfg, c, step))
  {
    MoverMoves(cfg, c, step);
    NothingRejected(cfg, c, step);
    var d := Next(cfg, c, step);
    forall w: nat | w < |d.workers|
      ensures InDepth(d.workers[w])
    {
      if Mover(step) == Some(w) {
        MoverInDepth(cfg, c, step, w);
      } else {
        assert d.workers[w] == c.workers[w];
      }
    }
  }

  ghost predicate Distinct(s: seq<string>) {
    forall i, j | 0 <= i < j < |s| :: s[i] != s[j]
  }

  lemma {:induction false} DistinctSnoc(s: seq<string>, k: string)
    requires Distinct(s) && k !in s
    ensures Distinct(s + [k])
  {
  }

  /** Each key was retried at most once, and the failing keys are exactly the domain of failures. */
  ghost predicate RetryOnce(cfg: Config, c: Crawl) {
    && Distinct(c.log.retried)
    && (forall k | k in c.log.retried :: k in c.failures)
    && |c.log.retried| == |c.failures|
    && (forall r | r in c.log.failed :: Key(cfg, r) in c.failures)
    && (forall k | k in c.failures :: c.failures[k] in c.log.failed && Key(cfg, c.failures[k]) == k)
  }

  /** Only SetFailure touches the failure table, and only by a first failure of a key. */
  lemma {:induction false} FailureDelta(cfg: Config, c: Crawl, step: Step)
    requires Enabled(cfg, c, step)
    ensures var d := Next(cfg, c, step);
            if !step.SetFailure? then
              d.failures == c.failures && d.log.failed == c.log.failed && d.log.retried == c.log.retried
            else
              var r := c.workers[step.w].r;
              && d.log.failed == c.log.failed + multiset{r}
              && (if Key(cfg, r) in c.failures
                  then d.failures == c.failures && d.log.retried == c.log.retried
                  else d.failures == c.failures[Key(cfg, r) := r] && d.log.retried == c.log.retried + [Key(cfg, r)])
  {
  }

  lemma {:induction false} FirstFailure(cfg: Config, c: Crawl, d: Crawl, r: Request)
    requires RetryOnce(cfg, c) && Key(cfg, r) !in c.failures
    requires d.log.failed == c.log.failed + multiset{r}
    requires d.failures == c.failures[Key(cfg, r) := r] && d.log.retried == c.log.retried + [Key(cfg, r)]
    ensures RetryOnce(cfg, d)
  {
    assert |d.failures| == |c.failures| + 1 by {
      assert d.failures.Keys == c.failures.Keys + {Key(cfg, r)};
    }
    forall k | k in d.failures
      ensures d.failures[k] in d.log.failed && Key(cfg, d.failures[k]) == k
    {
      if k != Key(cfg, r) {
        assert c.failures[k] in c.log.failed;
      }
    }
    DistinctSnoc(c.log.retried, Key(cfg, r));
  }

  lemma {:induction false} StepKeepsRetryOnce(cfg: Config, c: Crawl, step: Step)
    requires RetryOnce(cfg, c) && Enabled(cfg, c, step)
    ensures RetryOnce(cfg, Next(cfg, c, step))
  {
    FailureDelta(cfg, c, step);
    if step.SetFailure? && Key(cfg, c.workers[step.w].r) !in c.failures {
      FirstFailure(cfg, c, Next(cfg, c, step), c.workers[step.w].r);
    }
  }

  // ---------------------------------------------------------------- every run

  ghost predicate Inv(cfg: Config, c: Crawl) {
    && S.Inv(c.sched)
    && (forall q :: PushAccounted(c, q))
    && (forall q :: WorkAccounted(c, q))
    && LockHeld(c) && DepthSafe(c) && RetryOnce(cfg, c)
  }

  /** Idle workers and one Push goroutine with the seeds. */
  lemma {:induction false} StartAccounts(seeds: seq<Request>, workCount: nat, q: Request)
    ensures PushAccounted(Start(seeds, workCount), q) && WorkAccounted(Start(seeds, workCount), q)
  {
    var workers := Start(seeds, workCount).workers;
    SumNothing(HeldOf(q), workers);
    SumNothing(UnsentOf(q), workers);
    SumOne(PendingOf(q), seeds);
  }

  lemma {:induction false} StartInv(cfg: Config, seeds: seq<Request>, workCount: nat)
    ensures Inv(cfg, Start(seeds, workCount))
  {
    forall q
      ensures PushAccounted(Start(seeds, workCount), q) && WorkAccounted(Start(seeds, workCount), q)
    {
      StartAccounts(seeds, workCount, q);
    }
  }

  lemma {:induction false} StepKeepsInv(cfg: Config, c: Crawl, step: Step)
    requires Inv(cfg, c) && Enabled(cfg, c, step)
    ensures Inv(cfg, Next(cfg, c, step))
  {
    var d := Next(cfg, c, step);
    assert S.Inv(d.sched) by {
      StepProjects(cfg, c, step);
      if SchedulerStep(c, step).Some? {
        S.StepConserves(c.sched, SchedulerStep(c, step).value);
      }
    }
    forall q
      ensures PushAccounted(d, q) && WorkAccounted(d, q)
    {
      StepKeepsPushAccounted(cfg, c, step, q);
      StepKeepsWorkAccounted(cfg, c, step, q);
    }
    StepKeepsLockHeld(cfg, c, step);
    StepKeepsDepthSafe(cfg, c, step);
    StepKeepsRetryOnce(cfg, c, step);
  }

  lemma {:induction false} RunKeepsInv(cfg: Config, c: Crawl, steps: seq<Step>)
    requires Inv(cfg, c) && Exec(cfg, c, steps).Some?
    ensures Inv(cfg, Exec(cfg, c, steps).value)
    ensures |Exec(cfg, c, steps).value.workers| == |c.workers|
  {
    if |steps| == 0 {
    } else {
      RunKeepsInv(cfg, c, steps[..|steps| - 1]);
      var before := Exec(cfg, c, steps[..|steps| - 1]).value;
      StepKeepsInv(cfg, before, steps[|steps| - 1]);
      MoverMoves(cfg, before, steps[|steps| - 1]);
    }
  }
}
