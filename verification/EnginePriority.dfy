/** The scheduler's priority bound inside a whole crawl. */
module EnginePriority {
  import opened Spider
  import opened Sums
  import opened Engine
  import opened EngineInvariant
  import S = Scheduler

  /** Once a crawl's scheduler accepts a seed, a child or a retry of positive priority behind j queued
      ones, then until that request leaves the scheduler the workers of the crawl pull at most one
      ordinary request and at most j + 1 requests in all, whatever the other goroutines do. */
  lemma {:induction false} CrawlBoundsInversion(cfg: Config, c: Crawl, step: Step, r: Request, steps: seq<Step>)
    requires Inv(cfg, c) && Enabled(cfg, c, step) && SchedulerStep(c, step) == Some(S.Recv(r)) && r.priority > 0
    requires Exec(cfg, Next(cfg, c, step), steps).Some?
    ensures var t := Exec(cfg, Next(cfg, c, step), steps).value.sched;
            && c.sched.delivered <= t.delivered
            && (S.StillInside(c.sched, t) ==>
                  && |Only(S.Ordinary(), S.Since(c.sched, t))| <= 1
                  && |S.Since(c.sched, t)| <= |c.sched.pri| + 1)
  {
    StepProjects(cfg, c, step);
    var inner := RunProjects(cfg, Next(cfg, c, step), steps);
    S.BoundedInversion(c.sched, r, inner);
  }
}
