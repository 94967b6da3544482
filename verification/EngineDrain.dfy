/** Deadlock freedom, full drain, and where every request ended. */
module EngineDrain {
  import opened Spider
  import opened Sums
  import opened Engine
  import opened EngineInvariant
  import opened EngineTermination
  import S = Scheduler

  /** Nothing is outstanding: every goroutine waits for something only a new request could bring. */
  predicate Drained(c: Crawl) {
    && S.Idle(c.sched)
    && (forall i | 0 <= i < |c.pushers| :: c.pushers[i] == [])
    && (forall w | 0 <= w < |c.workers| :: c.workers[w].AtPull?)
    && c.unhandled == 0
  }

  /** A step the given worker can take without a partner, or with one that is ready. */
  function WorkerStep(c: Crawl, w: nat): Step
    requires w < |c.workers|
  {
    match c.workers[w]
    case AtPull => Pull(w)
    case AtCheck(_) => Check(w)
    case AtHasVisited(_) => HasVisited(w)
    case AtStoreVisited(_) => StoreVisited(w)
    case AtFetch(_) => Fetch(w, FetchError)
    case AtParse(_) => Parse(w, ParseError)
    case AtUnvisit(_) => Unvisit(w)
    case AtFailureLock(_) => if c.lockedBy.Some? then Repush(c.lockedBy.value) else SetFailure(w)
    case AtRepush(_) => Repush(w)
    case AtOut(_) => if c.unhandled > 0 then SaveItem else HandResult(w)
  }

  /** A busy worker can move once the scheduler is at its select. In particular a worker waiting for
      failureLock waits for one that is blocked in Push, and the select accepts that push. */
  lemma {:induction false} BusyWorkerMoves(cfg: Config, c: Crawl, w: nat)
    requires LockHeld(c) && c.sched.selecting && w < |c.workers| && !c.workers[w].AtPull?
    ensures Enabled(cfg, c, WorkerStep(c, w))
  {
  }

  /** With at least one worker, a reachable state that is not drained has an enabled step. */
  lemma {:induction false} NoDeadlock(cfg: Config, c: Crawl) returns (step: Step)
    requires Inv(cfg, c) && |c.workers| > 0 && !Drained(c)
    ensures Enabled(cfg, c, step)
  {
    if !c.sched.selecting {
      step := Scheduling;
    } else if i: nat :| i < |c.pushers| && c.pushers[i] != [] {
      step := PushNext(i);
    } else if w: nat :| w < |c.workers| && !c.workers[w].AtPull? {
      BusyWorkerMoves(cfg, c, w);
      step := WorkerStep(c, w);
    } else if c.unhandled > 0 {
      step := SaveItem;
    } else {
      assert c.workers[0].AtPull?;
      step := Pull(0);
    }
  }

  /** A crawl can only stop where nothing is outstanding, and there it does stop. */
  lemma {:induction false} StopsExactlyWhenDrained(cfg: Config, c: Crawl)
    requires Inv(cfg, c) && |c.workers| > 0
    ensures (forall step :: !Enabled(cfg, c, step)) <==> Drained(c)
  {
    if !Drained(c) {
      var step := NoDeadlock(cfg, c);
    } else {
      forall step
        ensures !Enabled(cfg, c, step)
      {
        if Mover(step).Some? && step.w < |c.workers| {
          assert c.workers[step.w].AtPull?;
        }
      }
    }
  }

  /** The crawl as it would be if no page had children. */
  function Childless(cfg: Config): Config { cfg.(maxChildren := 0) }

  lemma {:induction false} ChildlessStep(cfg: Config, c: Crawl, step: Step)
    requires Enabled(Childless(cfg), c, step)
    ensures Enabled(cfg, c, step) && Next(cfg, c, step) == Next(Childless(cfg), c, step)
  {
    assert forall r :: Key(cfg, r) == Key(Childless(cfg), r);
  }

  lemma {:induction false} ChildlessRun(cfg: Config, c: Crawl, steps: seq<Step>)
    requires Exec(Childless(cfg), c, steps).Some?
    ensures Exec(cfg, c, steps) == Exec(Childless(cfg), c, steps)
  {
    if |steps| == 0 {
    } else {
      ChildlessRun(cfg, c, steps[..|steps| - 1]);
      ChildlessStep(cfg, Exec(cfg, c, steps[..|steps| - 1]).value, steps[|steps| - 1]);
    }
  }

  lemma {:induction false} ChildlessDrains(cfg: Config, c: Crawl) returns (steps: seq<Step>, end: Crawl)
    requires Inv(cfg, c) && cfg.maxChildren == 0 && |c.workers| > 0
    ensures Exec(cfg, c, steps) == Some(end) && Drained(end) && Inv(cfg, end)
    ensures |steps| <= Measure(cfg, c)
    decreases Measure(cfg, c)
  {
    if Drained(c) {
      steps, end := [], c;
    } else {
      var step := NoDeadlock(cfg, c);
      var d := Next(cfg, c, step);
      StepKeepsInv(cfg, c, step);
      StepLowersMeasure(cfg, c, step);
      MoverMoves(cfg, c, step);
      var rest;
      rest, end := ChildlessDrains(cfg, d);
      ExecOne(cfg, c, step);
      ExecConcat(cfg, c, [step], rest);
      steps := [step] + rest;
    }
  }

  /** From every state of a crawl, whatever its depth limit, some run drains it, and some such run is no
      longer than the measure of the same crawl without further children. */
  lemma {:induction false} EveryCrawlDrains(cfg: Config, c: Crawl) returns (steps: seq<Step>, end: Crawl)
    requires Inv(cfg, c) && |c.workers| > 0
    ensures Exec(cfg, c, steps) == Some(end) && Drained(end) && Inv(cfg, end)
    ensures |steps| <= Measure(Childless(cfg), c)
  {
    assert forall r :: Key(cfg, r) == Key(Childless(cfg), r);
    steps, end := ChildlessDrains(Childless(cfg), c);
    ChildlessRun(cfg, c, steps);
    RunKeepsInv(cfg, c, steps);
  }

  /** With at least one worker, a crawl that cannot go on has drained, and within the step budget where
      there is one. */
  lemma {:induction false} MaximalCrawlDrains(
    cfg: Config, seeds: seq<Request>, workCount: nat, steps: seq<Step>, end: Crawl)
    requires Exec(cfg, Start(seeds, workCount), steps) == Some(end) && workCount > 0
    ensures (forall step :: !Enabled(cfg, end, step)) <==> Drained(end)
    ensures (forall r | r in seeds :: Limited(cfg, r.task)) ==> |steps| <= StepBudget(cfg, seeds)
  {
    StartInv(cfg, seeds, workCount);
    RunKeepsInv(cfg, Start(seeds, workCount), steps);
    StopsExactlyWhenDrained(cfg, end);
    if forall r | r in seeds :: Limited(cfg, r.task) {
      CrawlIsBounded(cfg, seeds, workCount, steps, end);
    }
  }

  // ---------------------------------------------------------------- where the items went

  /** Items that the parses of a run returned. */
  function ItemsParsed(steps: seq<Step>): nat {
    if |steps| == 0 then 0
    else
      var last := steps[|steps| - 1];
      ItemsParsed(steps[..|steps| - 1]) + if last.Parse? && last.result.ParseResult? then last.result.items else 0
  }

  /** Items that the result handler saved. */
  function ItemsSaved(steps: seq<Step>): nat {
    if |steps| == 0 then 0
    else ItemsSaved(steps[..|steps| - 1]) + if steps[|steps| - 1] == SaveItem then 1 else 0
  }

  /** Items of a result that a worker has still to hand over. */
  function ItemsHeld(): Worker -> nat { (w: Worker) => if w.AtOut? then w.items else 0 }

  lemma {:induction false} ItemsDelta(cfg: Config, c: Crawl, w: nat, step: Step)
    requires Enabled(cfg, c, step) && Mover(step) == Some(w)
    ensures var d := Next(cfg, c, step);
            d.unhandled + ItemsHeld()(d.workers[w]) ==
            c.unhandled + ItemsHeld()(c.workers[w])
            + if step.Parse? && step.result.ParseResult? then step.result.items else 0
  {
  }

  lemma {:induction false} StepAccountsItems(cfg: Config, c: Crawl, step: Step)
    requires Enabled(cfg, c, step)
    ensures var d := Next(cfg, c, step);
            d.unhandled + Sum(ItemsHeld(), d.workers) + (if step == SaveItem then 1 else 0) ==
            c.unhandled + Sum(ItemsHeld(), c.workers)
            + if step.Parse? && step.result.ParseResult? then step.result.items else 0
  {
    MoverMoves(cfg, c, step);
    if Mover(step).Some? {
      SumUpdate(ItemsHeld(), c.workers, step.w, Next(cfg, c, step).workers[step.w]);
      ItemsDelta(cfg, c, step.w, step);
    }
  }

  /** Every item that a parse returned is saved, with the handler, or with a worker that waits for the
      handler. A drained crawl has saved as many as its parses returned. */
  lemma {:induction false} RunAccountsItems(
    cfg: Config, seeds: seq<Request>, workCount: nat, steps: seq<Step>, end: Crawl)
    requires Exec(cfg, Start(seeds, workCount), steps) == Some(end)
    ensures ItemsParsed(steps) == ItemsSaved(steps) + end.unhandled + Sum(ItemsHeld(), end.workers)
    ensures Drained(end) ==> ItemsParsed(steps) == ItemsSaved(steps)
  {
    if |steps| == 0 {
      SumNothing(ItemsHeld(), end.workers);
    } else {
      var front := steps[..|steps| - 1];
      var before := Exec(cfg, Start(seeds, workCount), front).value;
      RunAccountsItems(cfg, seeds, workCount, front, before);
      StepAccountsItems(cfg, before, steps[|steps| - 1]);
      if Drained(end) {
        SumNothing(ItemsHeld(), end.workers);
      }
    }
  }

  // ---------------------------------------------------------------- where the requests went

  function TooDeep(): Request -> bool { (r: Request) => r.depth > r.task.maxDepth }

  /** What the scheduler's depth check dropped: what left it without being delivered. */
  function DroppedOf(q: Request, s: S.Sched): nat {
    multiset(Only(TooDeep(), s.left))[q]
  }

  /** At the end of a crawl every request handed to a Push, seeds, children and retries alike, was
      accepted and has exactly one outcome: dropped for its depth, skipped as visited, failed, broken
      in parsing, or parsed. Dropped are exactly those beyond the depth limit. */
  lemma {:induction false} DrainedAccounts(cfg: Config, c: Crawl, q: Request)
    requires Inv(cfg, c) && Drained(c)
    ensures c.log.created[q] ==
              DroppedOf(q, c.sched) + c.log.skipped[q] + c.log.failed[q] + c.log.broken[q] + c.log.parsed[q]
    ensures DroppedOf(q, c.sched) == if q.depth > q.task.maxDepth then c.log.created[q] else 0
  {
    assert PushAccounted(c, q) && WorkAccounted(c, q);
    SumNothing(HeldOf(q), c.workers);
    SumNothing(UnsentOf(q), c.workers);
    SumNothing(PendingOf(q), c.pushers);
    AllLeft(c.sched, q);
    OnlyCounts(S.Passes(), c.sched.left, q);
    OnlyCounts(TooDeep(), c.sched.left, q);
  }

  lemma {:induction false} OnlyCounts(p: Request -> bool, s: seq<Request>, q: Request)
    ensures multiset(Only(p, s))[q] == if p(q) then multiset(s)[q] else 0
  {
    if |s| == 0 {
    } else {
      OnlyCounts(p, s[..|s| - 1], q);
      assert s == s[..|s| - 1] + [s[|s| - 1]];
    }
  }

  /** With nothing queued or in hand, what was accepted has left. */
  lemma {:induction false} AllLeft(s: S.Sched, q: Request)
    requires S.Inv(s) && s.hand.None? && s.pri == [] && s.reg == []
    ensures multiset(s.accepted)[q] == multiset(s.left)[q]
  {
    var kind := if q.priority > 0 then S.Urgent() else S.Ordinary();
    assert Only(kind, s.accepted) == Only(kind, s.left);
    OnlyCounts(kind, s.accepted, q);
    OnlyCounts(kind, s.left, q);
  }
}
