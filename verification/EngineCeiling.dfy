/** When every crawl of a task ends, exactly. Depth is an int64: at a MaxDepth of the largest int64 it wraps
    around under the limit, and then only a lack of children or of keys can stop a crawl. */
module EngineCeiling {
  import opened Spider
  import opened Engine
  import opened EngineInvariant
  import opened EngineKeys
  import opened EngineTermination
  import opened EngineWorker
  import opened Sums
  import S = Scheduler

  ghost predicate BoundedBy(cfg: Config, seeds: seq<Request>, workCount: nat, bound: nat) {
    forall steps | Exec(cfg, Start(seeds, workCount), steps).Some? :: |steps| <= bound
  }

  /** Some number of steps is more than any run of this crawl makes. */
  ghost predicate Ends(cfg: Config, seeds: seq<Request>, workCount: nat) {
    exists bound: nat :: BoundedBy(cfg, seeds, workCount, bound)
  }

  /** Every crawl of the task's seeds ends. */
  ghost predicate AlwaysEnds(cfg: Config, task: Task) {
    forall seeds: seq<Request>, workCount: nat
      | forall r | r in seeds :: r.task == task && r.depth <= MAX_INT64
      :: Ends(cfg, seeds, workCount)
  }

  /** The digest has finitely many values, as any digest of fixed length has. */
  ghost predicate FinitelyManyKeys(cfg: Config) {
    exists keys: set<string> :: Covers(cfg, keys)
  }

  /** At most one child per page, and keys that run out. */
  ghost predicate KeysStop(cfg: Config, task: Task) {
    cfg.maxChildren <= 1 && !task.reload && FinitelyManyKeys(cfg)
  }

  function Deeper(r: Request): Request { r.(depth := NextDepth(r.depth)) }

  predicate AtCeiling(r: Request) {
    r.depth <= MAX_INT64 && r.task.maxDepth == MAX_INT64
  }

  // ---------------------------------------------------------------- one worker and ever new keys

  /** One worker, and nothing outstanding but one request, about to be pushed, that no filter stops. */
  ghost predicate Ready(cfg: Config, c: Crawl, r: Request) {
    && c.workers == [AtPull] && c.unhandled == 0 && c.lockedBy.None? && S.Idle(c.sched)
    && |c.pushers| > 0 && c.pushers[|c.pushers| - 1] == [r]
    && r.Check() && (r.task.reload || Key(cfg, r) !in c.visited)
  }

  /** The worker fetches the request, parses one child out of it and hands the result over. */
  lemma {:induction false} Spawn(cfg: Config, c: Crawl, r: Request, child: Request) returns (steps: seq<Step>, d: Crawl)
    requires c.workers == [AtCheck(r)] && c.lockedBy.None? && c.unhandled == 0 && cfg.maxChildren >= 1
    requires AtCheckPasses(cfg, c, r) && IsChild(r, child)
    ensures Exec(cfg, c, steps) == Some(d)
    ensures d.workers == [AtPull] && d.unhandled == 0 && d.lockedBy.None? && d.sched == c.sched
    ensures d.pushers == c.pushers + [[child]] && d.visited == c.visited + {Key(cfg, r)}
  {
    var fetched, result := Body(MIN_BODY), ParseResult([child], 0);
    TurnIsRun(cfg, c, 0, fetched, result);
    steps := StepsOf(cfg, c.visited, r, 0, fetched, result);
    var e := Exec(cfg, c, steps).value;
    ExecSnoc(cfg, c, steps, HandResult(0));
    steps, d := steps + [HandResult(0)], Next(cfg, e, HandResult(0));
  }

  predicate AtCheckPasses(cfg: Config, c: Crawl, r: Request) {
    r.Check() && (r.task.reload || Key(cfg, r) !in c.visited)
  }

  /** A child that no filter stops either: of a reload task any, else one with a key not yet visited. */
  lemma {:induction false} FreshChild(cfg: Config, visited: set<string>, r: Request) returns (child: Request)
    requires r.task.reload || !FinitelyManyKeys(cfg)
    ensures IsChild(r, child) && (child.task.reload || Key(cfg, child) !in visited)
  {
    if r.task.reload {
      child := Deeper(r);
    } else {
      assert !Covers(cfg, visited);
      var text :| cfg.digest(text) !in visited;
      child := Deeper(r).(url := text, verb := "");
      assert text + "" == text;
    }
  }

  /** One round brings the crawl back to the same situation, one level deeper. */
  lemma {:induction false} Round(cfg: Config, c: Crawl, r: Request)
    returns (steps: seq<Step>, d: Crawl, child: Request)
    requires Ready(cfg, c, r) && cfg.maxChildren >= 1 && (r.task.reload || !FinitelyManyKeys(cfg))
    ensures Exec(cfg, c, steps) == Some(d) && |steps| >= 1
    ensures IsChild(r, child) && (child.Check() ==> Ready(cfg, d, child))
    ensures d.sched.delivered == c.sched.delivered + [r]
  {
    var i := |c.pushers| - 1;
    var first := DeliverSteps(i, 0);
    assert [r] == [r] + [];
    DeliverRun(cfg, c, i, 0, r, []);
    var mid := Exec(cfg, c, first).value;
    child := FreshChild(cfg, c.visited + {Key(cfg, r)}, r);
    var second;
    second, d := Spawn(cfg, mid, r, child);
    ExecConcat(cfg, c, first, second);
    steps := first + second;
  }

  // ---------------------------------------------------------------- two workers on one key

  /** Two workers about to test requests with one key, which has failed before. */
  ghost predicate Racing(cfg: Config, c: Crawl, r: Request) {
    && c.workers == [AtCheck(r), AtCheck(r)] && c.unhandled == 0 && c.lockedBy.None? && S.Idle(c.sched)
    && Key(cfg, r) in c.failures && Key(cfg, r) !in c.visited
    && AtCeiling(r) && !r.task.reload
  }

  /** Both pass the tests. One parses two children with its own key, the other fails and unmarks that key. */
  lemma {:induction false} RaceTurns(cfg: Config, c: Crawl, r: Request) returns (steps: seq<Step>, d: Crawl)
    requires Racing(cfg, c, r) && cfg.maxChildren >= 2
    ensures Exec(cfg, c, steps) == Some(d) && |steps| >= 1
    ensures d.workers == [AtOut(0), AtPull] && d.unhandled == 0 && d.lockedBy.None? && S.Idle(d.sched)
    ensures d.pushers == c.pushers + [[Deeper(r), Deeper(r)]]
    ensures d.failures == c.failures && Key(cfg, r) !in d.visited
  {
    var result := ParseResult([Deeper(r), Deeper(r)], 0);
    steps := [Check(0), HasVisited(0)] + [Check(1), HasVisited(1)];
    BothPassTheChecks(cfg, c, r, r);
    var c1 := Exec(cfg, c, steps).value;
    var parse := FetchSteps(r, 0, Body(MIN_BODY), result);
    FetchTurnIsRun(cfg, c1, 0, r, Body(MIN_BODY), result);
    var c2 := Exec(cfg, c1, parse).value;
    ExecConcat(cfg, c, steps, parse);
    var fail := FetchSteps(r, 1, FetchError, ParseError);
    FetchTurnIsRun(cfg, c2, 1, r, FetchError, ParseError);
    ExecConcat(cfg, c, steps + parse, fail);
    steps, d := steps + parse + fail, Exec(cfg, c2, fail).value;
  }

  /** The result is handed over and both children reach the workers. */
  lemma {:induction false} RaceAgain(cfg: Config, c: Crawl, r: Request, front: seq<seq<Request>>)
    returns (steps: seq<Step>, d: Crawl)
    requires c.workers == [AtOut(0), AtPull] && c.unhandled == 0 && c.lockedBy.None? && S.Idle(c.sched)
    requires c.pushers == front + [[r, r]] && r.Check()
    ensures Exec(cfg, c, steps) == Some(d)
    ensures d.workers == [AtCheck(r), AtCheck(r)] && d.unhandled == 0 && d.lockedBy.None? && S.Idle(d.sched)
    ensures d.failures == c.failures && d.visited == c.visited
  {
    var i := |front|;
    ExecOne(cfg, c, HandResult(0));
    var c1 := Next(cfg, c, HandResult(0));
    assert [r, r] == [r] + [r] && [r] == [r] + [];
    DeliverRun(cfg, c1, i, 0, r, [r]);
    var c2 := Exec(cfg, c1, DeliverSteps(i, 0)).value;
    DeliverRun(cfg, c2, i, 1, r, []);
    ExecConcat(cfg, c, [HandResult(0)], DeliverSteps(i, 0));
    ExecConcat(cfg, c, [HandResult(0)] + DeliverSteps(i, 0), DeliverSteps(i, 1));
    steps := [HandResult(0)] + DeliverSteps(i, 0) + DeliverSteps(i, 1);
    d := Exec(cfg, c2, DeliverSteps(i, 1)).value;
  }

  lemma {:induction false} RaceRound(cfg: Config, c: Crawl, r: Request) returns (steps: seq<Step>, d: Crawl)
    requires Racing(cfg, c, r) && cfg.maxChildren >= 2
    ensures Exec(cfg, c, steps) == Some(d) && |steps| >= 1 && Racing(cfg, d, Deeper(r))
  {
    var first, mid := RaceTurns(cfg, c, r);
    var second;
    second, d := RaceAgain(cfg, mid, Deeper(r), c.pushers);
    ExecConcat(cfg, c, first, second);
    steps := first + second;
  }

  /** One of two equal seeds fails for the first time; its retry and the other seed reach the workers. */
  lemma {:induction false} RaceStarts(cfg: Config, r: Request) returns (steps: seq<Step>, d: Crawl)
    requires AtCeiling(r) && !r.task.reload
    ensures Exec(cfg, Start([r, r], 2), steps) == Some(d) && Racing(cfg, d, r)
  {
    var start := Start([r, r], 2);
    ExecOne(cfg, start, Scheduling);
    var c1 := Next(cfg, start, Scheduling);
    assert [r, r] == [r] + [r];
    DeliverRun(cfg, c1, 0, 0, r, [r]);
    var c2 := Exec(cfg, c1, DeliverSteps(0, 0)).value;
    var second;
    second, d := FirstFailureRetried(cfg, c2, r);
    ExecConcat(cfg, start, [Scheduling], DeliverSteps(0, 0));
    ExecConcat(cfg, start, [Scheduling] + DeliverSteps(0, 0), second);
    steps := [Scheduling] + DeliverSteps(0, 0) + second;
  }

  lemma {:induction false} FirstFailureRetried(cfg: Config, c: Crawl, r: Request) returns (steps: seq<Step>, d: Crawl)
    requires AtCeiling(r) && !r.task.reload && c.workers == [AtCheck(r), AtPull] && c.pushers == [[r]]
    requires c.unhandled == 0 && c.lockedBy.None? && S.Idle(c.sched) && c.visited == {} && c.failures == map[]
    ensures Exec(cfg, c, steps) == Some(d) && Racing(cfg, d, r)
  {
    TurnIsRun(cfg, c, 0, FetchError, ParseError);
    var fail, retry := StepsOf(cfg, c.visited, r, 0, FetchError, ParseError), [Repush(0), Scheduling];
    var c1 := Exec(cfg, c, fail).value;
    RepushRun(cfg, c1, 0, r);
    var c2 := Exec(cfg, c1, retry).value;
    ExecConcat(cfg, c, fail, retry);
    var rest;
    rest, d := RetryPulled(cfg, c2, r);
    ExecConcat(cfg, c, fail + retry, rest);
    steps := fail + retry + rest;
  }

  lemma {:induction false} RetryPulled(cfg: Config, c: Crawl, r: Request) returns (steps: seq<Step>, d: Crawl)
    requires AtCeiling(r) && !r.task.reload && c.workers == [AtPull, AtPull] && c.pushers == [[r]]
    requires c.unhandled == 0 && c.lockedBy.None? && S.Idle(c.sched.(hand := None)) && c.sched.hand == Some(r)
    requires Key(cfg, r) in c.failures && Key(cfg, r) !in c.visited
    ensures Exec(cfg, c, steps) == Some(d) && Racing(cfg, d, r)
  {
    PullRun(cfg, c, 0, r);
    var c1 := Exec(cfg, c, [Pull(0), Scheduling]).value;
    assert [r] == [r] + [];
    DeliverRun(cfg, c1, 0, 1, r, []);
    ExecConcat(cfg, c, [Pull(0), Scheduling], DeliverSteps(0, 1));
    steps, d := [Pull(0), Scheduling] + DeliverSteps(0, 1), Exec(cfg, c1, DeliverSteps(0, 1)).value;
  }

  // ---------------------------------------------------------------- how deep a crawl gets

  /** From a request at depth d, rounds with one worker deliver a request of every further depth up to the
      limit. */
  lemma {:induction false} RoundsDescend(cfg: Config, c: Crawl, r: Request, depth: int) returns (steps: seq<Step>)
    requires Ready(cfg, c, r) && cfg.maxChildren >= 1 && (r.task.reload || !FinitelyManyKeys(cfg))
    requires r.depth <= depth <= r.task.maxDepth <= MAX_INT64
    ensures Exec(cfg, c, steps).Some?
    ensures exists q :: q in Exec(cfg, c, steps).value.sched.delivered && q.task == r.task && q.depth == depth
    decreases depth - r.depth
  {
    var first, d, child := Round(cfg, c, r);
    if r.depth == depth {
      steps := first;
      assert r in d.sched.delivered;
    } else {
      assert child.depth == r.depth + 1;
      var rest := RoundsDescend(cfg, d, child, depth);
      ExecConcat(cfg, c, first, rest);
      steps := first + rest;
    }
  }

  /** The depth limit is exact: from a seed at depth 0 some crawl delivers to a worker a request of every
      depth up to MaxDepth, and no crawl delivers one beyond it. */
  lemma {:induction false} EveryLevelIsReached(cfg: Config, task: Task, depth: int)
    returns (seed: Request, steps: seq<Step>)
    requires cfg.maxChildren >= 1 && (task.reload || !FinitelyManyKeys(cfg))
    requires 0 <= depth <= task.maxDepth <= MAX_INT64
    ensures seed.task == task && seed.depth == 0 && Exec(cfg, Start([seed], 1), steps).Some?
    ensures exists q :: q in Exec(cfg, Start([seed], 1), steps).value.sched.delivered
                        && q.task == task && q.depth == depth
  {
    seed := Seed(task);
    var start := Start([seed], 1);
    ExecOne(cfg, start, Scheduling);
    var rest := RoundsDescend(cfg, Next(cfg, start, Scheduling), seed, depth);
    ExecConcat(cfg, start, [Scheduling], rest);
    steps := [Scheduling] + rest;
  }

  lemma {:induction false} NoLevelBeyond(cfg: Config, seeds: seq<Request>, workCount: nat, steps: seq<Step>, end: Crawl)
    requires Exec(cfg, Start(seeds, workCount), steps) == Some(end)
    ensures forall q | q in end.sched.delivered :: q.depth <= q.task.maxDepth
  {
    StartInv(cfg, seeds, workCount);
    RunKeepsInv(cfg, Start(seeds, workCount), steps);
    OnlyPasses(S.Passes(), end.sched.left);
  }

  // ---------------------------------------------------------------- round after round

  /** A situation that a round brings back. */
  ghost predicate Turning(cfg: Config, c: Crawl, r: Request) {
    || (Ready(cfg, c, r) && AtCeiling(r) && cfg.maxChildren >= 1 && (r.task.reload || !FinitelyManyKeys(cfg)))
    || (Racing(cfg, c, r) && cfg.maxChildren >= 2)
  }

  lemma {:induction false} Rounds(cfg: Config, c: Crawl, r: Request, n: nat) returns (steps: seq<Step>)
    requires Turning(cfg, c, r)
    ensures Exec(cfg, c, steps).Some? && |steps| >= n
    decreases n
  {
    if n == 0 {
      steps := [];
    } else {
      var first, d, next;
      if Racing(cfg, c, r) && cfg.maxChildren >= 2 {
        first, d := RaceRound(cfg, c, r);
        next := Deeper(r);
      } else {
        first, d, next := Round(cfg, c, r);
        ChildIsOneDeeper(r, next);
      }
      var rest := Rounds(cfg, d, next, n - 1);
      ExecConcat(cfg, c, first, rest);
      steps := first + rest;
    }
  }

  /** A crawl that reaches such a situation does not end. */
  lemma {:induction false} TurningNeverEnds(
    cfg: Config, seeds: seq<Request>, workCount: nat, steps: seq<Step>, c: Crawl, r: Request)
    requires Exec(cfg, Start(seeds, workCount), steps) == Some(c) && Turning(cfg, c, r)
    ensures !Ends(cfg, seeds, workCount)
  {
    var start := Start(seeds, workCount);
    forall bound: nat
      ensures !BoundedBy(cfg, seeds, workCount, bound)
    {
      var more := Rounds(cfg, c, r, bound + 1);
      ExecConcat(cfg, start, steps, more);
      var all := steps + more;
      assert Exec(cfg, start, all).Some? && |all| > bound;
    }
  }

  function Seed(task: Task): Request { Request(task, "u", "GET", 0, 0, "r") }

  /** At the ceiling one worker on one seed goes on for as long as one likes when the task is a reload task
      or keys never run out, and two workers on two equal seeds when a page can have two children. */
  lemma {:induction false} CeilingNeverEnds(cfg: Config, task: Task)
    requires task.maxDepth == MAX_INT64 && cfg.maxChildren >= 1 && !KeysStop(cfg, task)
    ensures if task.reload || !FinitelyManyKeys(cfg) then !Ends(cfg, [Seed(task)], 1)
            else !Ends(cfg, [Seed(task), Seed(task)], 2)
  {
    var r := Seed(task);
    if task.reload || !FinitelyManyKeys(cfg) {
      var start := Start([r], 1);
      ExecOne(cfg, start, Scheduling);
      TurningNeverEnds(cfg, [r], 1, [Scheduling], Next(cfg, start, Scheduling), r);
    } else {
      var steps, c := RaceStarts(cfg, r);
      TurningNeverEnds(cfg, [r, r], 2, steps, c, r);
    }
  }

  /** Every crawl of a task ends exactly when its depth limit is below the largest int64, or pages have no
      children, or they have at most one, the task does not reload, and there are finitely many keys. */
  lemma {:induction false} AlwaysEndsIff(cfg: Config, task: Task)
    requires task.maxDepth <= MAX_INT64
    ensures AlwaysEnds(cfg, task) <==>
            task.maxDepth < MAX_INT64 || cfg.maxChildren == 0
            || (cfg.maxChildren == 1 && !task.reload && FinitelyManyKeys(cfg))
  {
    if !Limited(cfg, task) && !KeysStop(cfg, task) {
      CeilingNeverEnds(cfg, task);
    } else {
      forall seeds: seq<Request>, workCount: nat | forall r | r in seeds :: r.task == task && r.depth <= MAX_INT64
        ensures Ends(cfg, seeds, workCount)
      {
        if Limited(cfg, task) {
          LimitedEnds(cfg, seeds, workCount);
        } else {
          KeysEnd(cfg, seeds, workCount);
        }
      }
    }
  }

  lemma {:induction false} LimitedEnds(cfg: Config, seeds: seq<Request>, workCount: nat)
    requires forall r | r in seeds :: Limited(cfg, r.task)
    ensures Ends(cfg, seeds, workCount)
  {
    forall steps | Exec(cfg, Start(seeds, workCount), steps).Some?
      ensures |steps| <= StepBudget(cfg, seeds)
    {
      CrawlIsBounded(cfg, seeds, workCount, steps, Exec(cfg, Start(seeds, workCount), steps).value);
    }
    assert BoundedBy(cfg, seeds, workCount, StepBudget(cfg, seeds));
  }

  lemma {:induction false} KeysEnd(cfg: Config, seeds: seq<Request>, workCount: nat)
    requires cfg.maxChildren <= 1 && FinitelyManyKeys(cfg) && forall r | r in seeds :: !r.task.reload
    ensures Ends(cfg, seeds, workCount)
  {
    var keys: set<string> :| Covers(cfg, keys);
    var bound := KeyMeasure(cfg, 3 * |keys|, Start(seeds, workCount));
    forall steps | Exec(cfg, Start(seeds, workCount), steps).Some?
      ensures |steps| <= bound
    {
      KeysRunOut(cfg, keys, seeds, workCount, steps);
    }
    assert BoundedBy(cfg, seeds, workCount, bound);
  }
}
