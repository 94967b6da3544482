/** Visited keys and retries under every interleaving. */
module EngineDedup {
  import opened Spider
  import opened Engine
  import opened EngineInvariant
  import opened EngineWorker

  // ---------------------------------------------------------------- visited keys

  /** Past its visited check and not yet done with the fetch and its failure. */
  predicate PastCheck(cfg: Config, w: Worker, key: string) {
    && (w.AtStoreVisited? || w.AtFetch? || w.AtUnvisit?)
    && !w.r.task.reload && Key(cfg, w.r) == key
  }

  /** The key is visited and no worker that may still fetch it or unmark it is on its way. */
  ghost predicate Settled(cfg: Config, c: Crawl, key: string) {
    && key in c.visited
    && forall w | 0 <= w < |c.workers| :: !PastCheck(cfg, c.workers[w], key)
  }

  /** This step fetches a request of a non-reload task with the given key. */
  predicate Fetches(cfg: Config, c: Crawl, step: Step, key: string) {
    step.Fetch? && step.w < |c.workers| && c.workers[step.w].AtFetch?
    && !c.workers[step.w].r.task.reload && Key(cfg, c.workers[step.w].r) == key
  }

  lemma {:induction false} VisitedDelta(cfg: Config, c: Crawl, step: Step, key: string)
    requires Enabled(cfg, c, step)
    ensures key in c.visited && key !in Next(cfg, c, step).visited ==>
              step.Unvisit? && Key(cfg, c.workers[step.w].r) == key
    ensures step.StoreVisited? ==> Key(cfg, c.workers[step.w].r) in Next(cfg, c, step).visited
  {
  }

  lemma {:induction false} MoverPastCheck(cfg: Config, c: Crawl, step: Step, key: string)
    requires Enabled(cfg, c, step) && Mover(step).Some? && key in c.visited
    requires !PastCheck(cfg, c.workers[step.w], key)
    ensures !PastCheck(cfg, Next(cfg, c, step).workers[step.w], key)
  {
  }

  /** Only reload tasks reach the failure lock without unmarking; the others unmark on the way. */
  ghost predicate UnmarksOwn(c: Crawl) {
    forall w | 0 <= w < |c.workers| && c.workers[w].AtUnvisit? :: !c.workers[w].r.task.reload
  }

  lemma {:induction false} StepKeepsUnmarksOwn(cfg: Config, c: Crawl, step: Step)
    requires UnmarksOwn(c) && Enabled(cfg, c, step)
    ensures UnmarksOwn(Next(cfg, c, step))
  {
    MoverMoves(cfg, c, step);
  }

  lemma {:induction false} StepKeepsSettled(cfg: Config, c: Crawl, step: Step, key: string)
    requires Settled(cfg, c, key) && UnmarksOwn(c) && Enabled(cfg, c, step)
    ensures Settled(cfg, Next(cfg, c, step), key) && !Fetches(cfg, c, step, key)
  {
    MoverMoves(cfg, c, step);
    VisitedDelta(cfg, c, step, key);
    if Mover(step).Some? {
      assert !PastCheck(cfg, c.workers[step.w], key);
      MoverPastCheck(cfg, c, step, key);
    }
  }

  /** Step i of this run from `c` fetches the key. */
  ghost predicate FetchAt(cfg: Config, c: Crawl, steps: seq<Step>, i: nat, key: string) {
    i < |steps| && Exec(cfg, c, steps[..i]).Some? && Fetches(cfg, Exec(cfg, c, steps[..i]).value, steps[i], key)
  }

  lemma {:induction false} RunKeepsSettled(cfg: Config, c: Crawl, steps: seq<Step>, key: string)
    requires Settled(cfg, c, key) && UnmarksOwn(c) && Exec(cfg, c, steps).Some?
    ensures Settled(cfg, Exec(cfg, c, steps).value, key) && UnmarksOwn(Exec(cfg, c, steps).value)
  {
    if |steps| == 0 {
    } else {
      var front, step := steps[..|steps| - 1], steps[|steps| - 1];
      RunKeepsSettled(cfg, c, front, key);
      StepKeepsUnmarksOwn(cfg, Exec(cfg, c, front).value, step);
      StepKeepsSettled(cfg, Exec(cfg, c, front).value, step, key);
    }
  }

  lemma {:induction false} SettledStepFetchesNot(cfg: Config, c: Crawl, steps: seq<Step>, i: nat, key: string)
    requires Settled(cfg, c, key) && UnmarksOwn(c) && Exec(cfg, c, steps).Some? && i < |steps|
    ensures !FetchAt(cfg, c, steps, i, key)
  {
    ExecPrefix(cfg, c, steps, i + 1);
    assert steps[..i + 1][..i] == steps[..i];
    RunKeepsSettled(cfg, c, steps[..i], key);
    StepKeepsSettled(cfg, Exec(cfg, c, steps[..i]).value, steps[i], key);
  }

  /** Once a key is visited and no non-reload worker is past its check on it, the key stays visited
      for good and no non-reload request with it is fetched again. */
  lemma {:induction false} VisitedStaysVisited(cfg: Config, c: Crawl, steps: seq<Step>, key: string)
    requires Settled(cfg, c, key) && UnmarksOwn(c) && Exec(cfg, c, steps).Some?
    ensures Settled(cfg, Exec(cfg, c, steps).value, key)
    ensures forall i: nat :: !FetchAt(cfg, c, steps, i, key)
  {
    RunKeepsSettled(cfg, c, steps, key);
    forall i: nat
      ensures !FetchAt(cfg, c, steps, i, key)
    {
      if i < |steps| {
        SettledStepFetchesNot(cfg, c, steps, i, key);
      }
    }
  }

  // ---------------------------------------------------------------- at most one fetch per key

  predicate Succeeds(step: Step) {
    step.Fetch? && step.fetched.Body? && step.fetched.length >= MIN_BODY
  }

  /** What the visited table is for: after a fetch that did not fail, no other fetch of the key. */
  ghost predicate FetchedOnce(workCount: nat) {
    forall cfg: Config, seeds: seq<Request>, steps: seq<Step>, i: nat, j: nat, key: string
      | Exec(cfg, Start(seeds, workCount), steps).Some? && i < j
        && FetchAt(cfg, Start(seeds, workCount), steps, i, key) && Succeeds(steps[i])
      :: !FetchAt(cfg, Start(seeds, workCount), steps, j, key)
  }

  /** With a single worker nobody else unmarks the key it is about to fetch. */
  ghost predicate Alone(cfg: Config, c: Crawl) {
    && |c.workers| <= 1
    && forall w | 0 <= w < |c.workers| && (c.workers[w].AtFetch? || c.workers[w].AtUnvisit?) ::
         Key(cfg, c.workers[w].r) in c.visited
  }

  lemma {:induction false} StepKeepsAlone(cfg: Config, c: Crawl, step: Step)
    requires Alone(cfg, c) && Enabled(cfg, c, step)
    ensures Alone(cfg, Next(cfg, c, step))
  {
    MoverMoves(cfg, c, step);
    if Mover(step).None? {
      VisitedUntouched(cfg, c, step);
    } else {
      assert step.w == 0;
    }
  }

  lemma {:induction false} VisitedUntouched(cfg: Config, c: Crawl, step: Step)
    requires Enabled(cfg, c, step) && Mover(step).None?
    ensures Next(cfg, c, step).visited == c.visited
  {
  }

  lemma {:induction false} RunKeepsAlone(cfg: Config, c: Crawl, steps: seq<Step>)
    requires Alone(cfg, c) && UnmarksOwn(c) && Exec(cfg, c, steps).Some?
    ensures Alone(cfg, Exec(cfg, c, steps).value) && UnmarksOwn(Exec(cfg, c, steps).value)
  {
    if |steps| == 0 {
    } else {
      RunKeepsAlone(cfg, c, steps[..|steps| - 1]);
      StepKeepsAlone(cfg, Exec(cfg, c, steps[..|steps| - 1]).value, steps[|steps| - 1]);
      StepKeepsUnmarksOwn(cfg, Exec(cfg, c, steps[..|steps| - 1]).value, steps[|steps| - 1]);
    }
  }

  lemma {:induction false} SuccessSettles(cfg: Config, c: Crawl, step: Step, key: string)
    requires Alone(cfg, c) && Enabled(cfg, c, step) && Fetches(cfg, c, step, key) && Succeeds(step)
    ensures Settled(cfg, Next(cfg, c, step), key)
  {
    assert step.w == 0;
  }

  /** After the first n steps have settled the key, no later step of the run fetches it. */
  lemma {:induction false} SettledNeverFetches(cfg: Config, c: Crawl, steps: seq<Step>, n: nat, j: nat, key: string)
    requires Exec(cfg, c, steps).Some? && n <= j && n <= |steps| && Exec(cfg, c, steps[..n]).Some?
    requires var d := Exec(cfg, c, steps[..n]).value;
             Settled(cfg, d, key) && UnmarksOwn(d)
    ensures !FetchAt(cfg, c, steps, j, key)
  {
    if j < |steps| {
      var first, rest := steps[..n], steps[n..];
      assert steps == first + rest;
      ExecConcat(cfg, c, first, rest);
      SettledStepFetchesNot(cfg, Exec(cfg, c, first).value, rest, j - n, key);
      assert steps[..j] == first + rest[..j - n] && rest[j - n] == steps[j];
      ExecConcat(cfg, c, first, rest[..j - n]);
    }
  }

  lemma {:induction false} AloneFetchesOnce(cfg: Config, c: Crawl, steps: seq<Step>, i: nat, j: nat, key: string)
    requires Alone(cfg, c) && UnmarksOwn(c) && Exec(cfg, c, steps).Some? && i < j
    requires FetchAt(cfg, c, steps, i, key) && Succeeds(steps[i])
    ensures !FetchAt(cfg, c, steps, j, key)
  {
    ExecPrefix(cfg, c, steps, i + 1);
    assert steps[..i + 1][..i] == steps[..i];
    RunKeepsAlone(cfg, c, steps[..i]);
    var before := Exec(cfg, c, steps[..i]).value;
    SuccessSettles(cfg, before, steps[i], key);
    StepKeepsUnmarksOwn(cfg, before, steps[i]);
    SettledNeverFetches(cfg, c, steps, i + 1, j, key);
  }

  const RACE := Request(Task("t", false, 0), "u", "GET", 0, 0, "r")

  function WithTwo(workCount: nat, a: Worker, b: Worker): seq<Worker>
    requires workCount >= 2
  {
    seq(workCount, i => AtPull)[0 := a][1 := b]
  }

  /** Two seeds with one key reach two workers before either marks it. */
  lemma {:induction false} BothPull(cfg: Config, workCount: nat) returns (steps: seq<Step>, c: Crawl)
    requires workCount >= 2
    ensures Exec(cfg, Start([RACE, RACE], workCount), steps) == Some(c)
    ensures c.workers == WithTwo(workCount, AtCheck(RACE), AtCheck(RACE)) && c.visited == {}
  {
    var start := Start([RACE, RACE], workCount);
    ExecSnoc(cfg, start, [], Scheduling);
    assert [] + [Scheduling] == [Scheduling];
    var c1 := Next(cfg, start, Scheduling);
    assert [RACE, RACE] == [RACE] + [RACE];
    DeliverRun(cfg, c1, 0, 0, RACE, [RACE]);
    var c2 := Exec(cfg, c1, DeliverSteps(0, 0)).value;
    assert [RACE] == [RACE] + [];
    DeliverRun(cfg, c2, 0, 1, RACE, []);
    c := Exec(cfg, c2, DeliverSteps(0, 1)).value;
    ExecConcat(cfg, start, [Scheduling], DeliverSteps(0, 0));
    ExecConcat(cfg, start, [Scheduling] + DeliverSteps(0, 0), DeliverSteps(0, 1));
    steps := [Scheduling] + DeliverSteps(0, 0) + DeliverSteps(0, 1);
  }

  /** Both look the key up before either stores it, so both reach the fetch. */
  lemma {:induction false} BothReachTheFetch(cfg: Config, workCount: nat, c: Crawl) returns (steps: seq<Step>, d: Crawl)
    requires workCount >= 2 && c.workers == WithTwo(workCount, AtCheck(RACE), AtCheck(RACE)) && c.visited == {}
    ensures Exec(cfg, c, steps) == Some(d)
    ensures d.workers == WithTwo(workCount, AtFetch(RACE), AtFetch(RACE))
  {
    var checks, stores := [Check(0), HasVisited(0)] + [Check(1), HasVisited(1)], [StoreVisited(0), StoreVisited(1)];
    BothPassTheChecks(cfg, c, RACE, RACE);
    var mid := Exec(cfg, c, checks).value;
    ExecTwo(cfg, mid, StoreVisited(0), StoreVisited(1));
    ExecConcat(cfg, c, checks, stores);
    steps, d := checks + stores, Next(cfg, Next(cfg, mid, StoreVisited(0)), StoreVisited(1));
  }

  /** The two checks are separate lock sections: two workers can fetch one key twice. */
  lemma {:induction false} TwoWorkersFetchTwice(cfg: Config, workCount: nat)
    requires workCount >= 2
    ensures !FetchedOnce(workCount)
  {
    var start := Start([RACE, RACE], workCount);
    var key := Key(cfg, RACE);
    var pulls, c := BothPull(cfg, workCount);
    var checks, d := BothReachTheFetch(cfg, workCount, c);
    ExecConcat(cfg, start, pulls, checks);
    var front := pulls + checks;
    var first, second := Fetch(0, Body(MIN_BODY)), Fetch(1, Body(MIN_BODY));
    ExecSnoc(cfg, start, front, first);
    ExecSnoc(cfg, start, front + [first], second);
    var steps := front + [first] + [second];
    assert steps[..|front|] == front;
    assert steps[..|front| + 1] == front + [first];
    assert FetchAt(cfg, start, steps, |front|, key);
    assert FetchAt(cfg, start, steps, |front| + 1, key);
  }

  /** The at-most-once promise of the visited table is kept exactly by crawls with one worker or none. */
  lemma {:induction false} FetchedOnceIffSequential(workCount: nat)
    ensures FetchedOnce(workCount) <==> workCount <= 1
  {
    if workCount >= 2 {
      TwoWorkersFetchTwice(Config(s => s, 0, 0), workCount);
    } else {
      forall cfg: Config, seeds: seq<Request>, steps: seq<Step>, i: nat, j: nat, key: string
        | Exec(cfg, Start(seeds, workCount), steps).Some? && i < j
          && FetchAt(cfg, Start(seeds, workCount), steps, i, key) && Succeeds(steps[i])
        ensures !FetchAt(cfg, Start(seeds, workCount), steps, j, key)
      {
        AloneFetchesOnce(cfg, Start(seeds, workCount), steps, i, j, key);
      }
    }
  }

  // ---------------------------------------------------------------- retries

  /** How many retry pushes a run made. */
  function Repushes(steps: seq<Step>): nat {
    if |steps| == 0 then 0
    else Repushes(steps[..|steps| - 1]) + if steps[|steps| - 1].Repush? then 1 else 0
  }

  lemma {:induction false} RetryDelta(cfg: Config, c: Crawl, step: Step)
    requires LockHeld(c) && Enabled(cfg, c, step)
    ensures var d := Next(cfg, c, step);
            |d.log.retried| - (if d.lockedBy.Some? then 1 else 0)
            == |c.log.retried| - (if c.lockedBy.Some? then 1 else 0) + (if step.Repush? then 1 else 0)
  {
  }

  lemma {:induction false} RepushesAreRetried(
    cfg: Config, seeds: seq<Request>, workCount: nat, steps: seq<Step>, end: Crawl)
    requires Exec(cfg, Start(seeds, workCount), steps) == Some(end)
    ensures Inv(cfg, end)
    ensures Repushes(steps) + (if end.lockedBy.Some? then 1 else 0) == |end.log.retried|
  {
    if |steps| == 0 {
      StartInv(cfg, seeds, workCount);
    } else {
      var before := Exec(cfg, Start(seeds, workCount), steps[..|steps| - 1]).value;
      RepushesAreRetried(cfg, seeds, workCount, steps[..|steps| - 1], before);
      StepKeepsInv(cfg, before, steps[|steps| - 1]);
      RetryDelta(cfg, before, steps[|steps| - 1]);
    }
  }

  /** Over the whole run, the retry pushes made, plus the one being made under the lock, are as many
      as the failure table has keys, no key was retried twice, and a key is in the table exactly when
      a request with it has failed. */
  lemma {:induction false} RetriedAtMostOnce(
    cfg: Config, seeds: seq<Request>, workCount: nat, steps: seq<Step>, end: Crawl)
    requires Exec(cfg, Start(seeds, workCount), steps) == Some(end)
    ensures Repushes(steps) + (if end.lockedBy.Some? then 1 else 0) == |end.failures|
    ensures Distinct(end.log.retried) && |end.log.retried| == |end.failures|
    ensures forall k :: k in end.failures <==> exists r :: r in end.log.failed && Key(cfg, r) == k
  {
    RepushesAreRetried(cfg, seeds, workCount, steps, end);
  }
}
