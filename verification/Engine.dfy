/** The crawler as a step system: any number of workers, Push goroutines, the scheduler goroutine and
    the result handler, over unbuffered channels and two locks (engine/schedule.go). A step is one
    rendezvous, one lock section, or one step local to a goroutine. */
module Engine {
  import opened Spider
  import S = Scheduler

  /** Bodies shorter than this count as a failed fetch. */
  const MIN_BODY := 6000

  /** The digest behind Unique, and bounds on what one parse returns. */
  datatype Config = Config(digest: string -> string, maxChildren: nat, maxItems: nat)

  function Key(cfg: Config, r: Request): string {
    r.Unique(cfg.digest)
  }

  /** Program counter of CreateWork, with the request or result the goroutine holds. */
  datatype Worker =
    | AtPull
    | AtCheck(r: Request)
    | AtHasVisited(r: Request)
    | AtStoreVisited(r: Request)
    | AtFetch(r: Request)
    | AtParse(r: Request)
    | AtUnvisit(r: Request)
    | AtFailureLock(r: Request)
    | AtRepush(r: Request)
    | AtOut(items: nat)

  /** How the requests that reached a worker ended, and every request ever handed to a Push. */
  datatype Log = Log(
    created: multiset<Request>, rejected: multiset<Request>, skipped: multiset<Request>,
    failed: multiset<Request>, broken: multiset<Request>, parsed: multiset<Request>,
    retried: seq<string>)

  /** `pushers` are the requests each Push goroutine has still to send; `unhandled` is how many items
      of the current result the handler has still to save; `lockedBy` is the holder of failureLock. */
  datatype Crawl = Crawl(
    sched: S.Sched, workers: seq<Worker>, pushers: seq<seq<Request>>, unhandled: nat,
    visited: set<string>, failures: map<string, Request>, lockedBy: Option<nat>, log: Log)

  function Start(seeds: seq<Request>, workCount: nat): Crawl {
    Crawl(S.FRESH, seq(workCount, i => AtPull), [seeds], 0, {}, map[], None,
          Log(multiset(seeds), multiset{}, multiset{}, multiset{}, multiset{}, multiset{}, []))
  }

  datatype Fetched = FetchError | Body(length: nat)

  /** An error and a short body both count as a failed fetch. */
  predicate FetchFailed(fetched: Fetched) {
    fetched.FetchError? || fetched.length < MIN_BODY
  }

  datatype Parsed = ParseError | ParseResult(requests: seq<Request>, items: nat)

  datatype Step =
    | Scheduling
    | PushNext(i: nat)
    | Repush(w: nat)
    | Pull(w: nat)
    | Check(w: nat)
    | HasVisited(w: nat)
    | StoreVisited(w: nat)
    | Fetch(w: nat, fetched: Fetched)
    | Parse(w: nat, result: Parsed)
    | Unvisit(w: nat)
    | SetFailure(w: nat)
    | HandResult(w: nat)
    | SaveItem

  predicate ResultOk(cfg: Config, r: Request, result: Parsed) {
    result.ParseResult? ==>
      && |result.requests| <= cfg.maxChildren && result.items <= cfg.maxItems
      && forall child | child in result.requests :: IsChild(r, child)
  }

  predicate Enabled(cfg: Config, c: Crawl, step: Step) {
    match step
    case Scheduling => S.Enabled(c.sched, S.Top)
    case PushNext(i) => i < |c.pushers| && c.pushers[i] != [] && c.sched.selecting
    case Repush(w) => w < |c.workers| && c.workers[w].AtRepush? && c.sched.selecting
    case Pull(w) => w < |c.workers| && c.workers[w].AtPull? && S.Enabled(c.sched, S.Send)
    case Check(w) => w < |c.workers| && c.workers[w].AtCheck?
    case HasVisited(w) => w < |c.workers| && c.workers[w].AtHasVisited?
    case StoreVisited(w) => w < |c.workers| && c.workers[w].AtStoreVisited?
    case Fetch(w, _) => w < |c.workers| && c.workers[w].AtFetch?
    case Parse(w, result) => w < |c.workers| && c.workers[w].AtParse? && ResultOk(cfg, c.workers[w].r, result)
    case Unvisit(w) => w < |c.workers| && c.workers[w].AtUnvisit?
    case SetFailure(w) => w < |c.workers| && c.workers[w].AtFailureLock? && c.lockedBy.None?
    case HandResult(w) => w < |c.workers| && c.workers[w].AtOut? && c.unhandled == 0
    case SaveItem => c.unhandled > 0
  }

  function Move(c: Crawl, w: nat, to: Worker): Crawl
    requires w < |c.workers|
  {
    c.(workers := c.workers[w := to])
  }

  function Next(cfg: Config, c: Crawl, step: Step): Crawl
    requires Enabled(cfg, c, step)
  {
    match step
    case Scheduling =>
      c.(sched := S.Next(c.sched, S.Top))
    case PushNext(i) =>
      c.(sched := S.Next(c.sched, S.Recv(c.pushers[i][0])), pushers := c.pushers[i := c.pushers[i][1..]])
    case Repush(w) =>
      Move(c, w, AtPull).(sched := S.Next(c.sched, S.Recv(c.workers[w].r)), lockedBy := None)
    case Pull(w) =>
      Move(c, w, AtCheck(c.sched.hand.value)).(sched := S.Next(c.sched, S.Send))
    case Check(w) =>
      var r := c.workers[w].r;
      if r.Check() then Move(c, w, AtHasVisited(r))
      else Move(c, w, AtPull).(log := c.log.(rejected := c.log.rejected + multiset{r}))
    case HasVisited(w) =>
      var r := c.workers[w].r;
      if !r.task.reload && Key(cfg, r) in c.visited
      then Move(c, w, AtPull).(log := c.log.(skipped := c.log.skipped + multiset{r}))
      else Move(c, w, AtStoreVisited(r))
    case StoreVisited(w) =>
      var r := c.workers[w].r;
      Move(c, w, AtFetch(r)).(visited := c.visited + {Key(cfg, r)})
    case Fetch(w, fetched) =>
      var r := c.workers[w].r;
      if FetchFailed(fetched)
      then Move(c, w, if r.task.reload then AtFailureLock(r) else AtUnvisit(r))
      else Move(c, w, AtParse(r))
    case Parse(w, result) =>
      var r := c.workers[w].r;
      if result.ParseError?
      then Move(c, w, AtPull).(log := c.log.(broken := c.log.broken + multiset{r}))
      else
        Move(c, w, AtOut(result.items)).(
          pushers := if result.requests == [] then c.pushers else c.pushers + [result.requests],
          log := c.log.(parsed := c.log.parsed + multiset{r},
                        created := c.log.created + multiset(result.requests)))
    case Unvisit(w) =>
      var r := c.workers[w].r;
      Move(c, w, AtFailureLock(r)).(visited := c.visited - {Key(cfg, r)})
    case SetFailure(w) =>
      var r := c.workers[w].r;
      var log := c.log.(failed := c.log.failed + multiset{r});
      if Key(cfg, r) in c.failures
      then Move(c, w, AtPull).(log := log)
      else
        Move(c, w, AtRepush(r)).(
          failures := c.failures[Key(cfg, r) := r], lockedBy := Some(w),
          log := log.(created := log.created + multiset{r}, retried := log.retried + [Key(cfg, r)]))
    case HandResult(w) =>
      Move(c, w, AtPull).(unhandled := c.workers[w].items)
    case SaveItem =>
      c.(unhandled := c.unhandled - 1)
  }

  /** Runs a list of steps; None when one of them is not enabled. */
  function Exec(cfg: Config, c: Crawl, steps: seq<Step>): Option<Crawl> {
    if |steps| == 0 then Some(c)
    else
      var before := Exec(cfg, c, steps[..|steps| - 1]);
      if before.Some? && Enabled(cfg, before.value, steps[|steps| - 1])
      then Some(Next(cfg, before.value, steps[|steps| - 1]))
      else None
  }

  lemma {:induction false} ExecSnoc(cfg: Config, c: Crawl, steps: seq<Step>, step: Step)
    ensures Exec(cfg, c, steps + [step]) ==
            var before := Exec(cfg, c, steps);
            if before.Some? && Enabled(cfg, before.value, step) then Some(Next(cfg, before.value, step)) else None
  {
    assert (steps + [step])[..|steps|] == steps;
  }

  lemma {:induction false} ExecOne(cfg: Config, c: Crawl, step: Step)
    requires Enabled(cfg, c, step)
    ensures Exec(cfg, c, [step]) == Some(Next(cfg, c, step))
  {
    ExecSnoc(cfg, c, [], step);
    assert [] + [step] == [step];
  }

  lemma {:induction false} ExecTwo(cfg: Config, c: Crawl, first: Step, second: Step)
    requires Enabled(cfg, c, first) && Enabled(cfg, Next(cfg, c, first), second)
    ensures Exec(cfg, c, [first, second]) == Some(Next(cfg, Next(cfg, c, first), second))
  {
    ExecOne(cfg, c, first);
    ExecSnoc(cfg, c, [first], second);
    assert [first] + [second] == [first, second];
  }

  lemma {:induction false} ExecConcat(cfg: Config, c: Crawl, a: seq<Step>, b: seq<Step>)
    requires Exec(cfg, c, a).Some?
    ensures Exec(cfg, c, a + b) == Exec(cfg, Exec(cfg, c, a).value, b)
  {
    if |b| == 0 {
      assert a + b == a;
    } else {
      ExecConcat(cfg, c, a, b[..|b| - 1]);
      assert (a + b)[..|a + b| - 1] == a + b[..|b| - 1];
    }
  }

  /** Every prefix of a run is a run. */
  lemma {:induction false} ExecPrefix(cfg: Config, c: Crawl, steps: seq<Step>, n: nat)
    requires Exec(cfg, c, steps).Some? && n <= |steps|
    ensures Exec(cfg, c, steps[..n]).Some?
  {
    if n < |steps| {
      ExecPrefix(cfg, c, steps[..|steps| - 1], n);
      assert steps[..|steps| - 1][..n] == steps[..n];
    } else {
      assert steps[..n] == steps;
    }
  }

  // ---------------------------------------------------------------- the scheduler inside the crawl

  /** What one engine step does to the scheduler, if anything. */
  function SchedulerStep(c: Crawl, step: Step): Option<S.Step> {
    match step
    case Scheduling => Some(S.Top)
    case PushNext(i) => if i < |c.pushers| && c.pushers[i] != [] then Some(S.Recv(c.pushers[i][0])) else None
    case Repush(w) => if w < |c.workers| && c.workers[w].AtRepush? then Some(S.Recv(c.workers[w].r)) else None
    case Pull(_) => Some(S.Send)
    case _ => None
  }

  lemma {:induction false} StepProjects(cfg: Config, c: Crawl, step: Step)
    requires Enabled(cfg, c, step)
    ensures var s := SchedulerStep(c, step);
            if s.None? then Next(cfg, c, step).sched == c.sched
            else S.Enabled(c.sched, s.value) && Next(cfg, c, step).sched == S.Next(c.sched, s.value)
  {
  }

  /** Every run of the whole crawler is, seen from the scheduler, a run of the scheduler alone. So its
      order, refinement and priority results hold inside every crawl. */
  lemma {:induction false} RunProjects(cfg: Config, c: Crawl, steps: seq<Step>) returns (inner: seq<S.Step>)
    requires Exec(cfg, c, steps).Some?
    ensures S.Exec(c.sched, inner) == Some(Exec(cfg, c, steps).value.sched)
  {
    if |steps| == 0 {
      inner := [];
    } else {
      inner := RunProjects(cfg, c, steps[..|steps| - 1]);
      var before := Exec(cfg, c, steps[..|steps| - 1]).value;
      StepProjects(cfg, before, steps[|steps| - 1]);
      var s := SchedulerStep(before, steps[|steps| - 1]);
      if s.Some? {
        S.ExecSnoc(c.sched, inner, s.value);
        inner := inner + [s.value];
      }
    }
  }
}
