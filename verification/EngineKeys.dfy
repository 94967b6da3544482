/** A second reason for a crawl to end, whatever its depth limit: with at most one child per page, a task
    without Reload runs out of keys when the digest has only finitely many values. */
module EngineKeys {
  import opened Spider
  import opened Sums
  import opened Engine
  import opened EngineInvariant
  import opened EngineTermination
  import S = Scheduler

  /** Every key is one of these. */
  ghost predicate Covers(cfg: Config, keys: set<string>) {
    forall text :: cfg.digest(text) in keys
  }

  predicate WithoutReload(c: Crawl, w: nat) {
    w < |c.workers| && (c.workers[w].AtPull? || c.workers[w].AtOut? || !c.workers[w].r.task.reload)
  }

  // ---------------------------------------------------------------- three parts of a measure

  /** What a worker's request may still do: 2 while it can unmark its key, 1 between that and its outcome. */
  function Lives(): Worker -> nat {
    (w: Worker) => if w.AtPull? || w.AtOut? then 0 else if w.AtFailureLock? then 1 else 2
  }

  function PusherLives(): seq<Request> -> nat { (p: seq<Request>) => 2 * |p| }

  function SchedLives(s: S.Sched): nat {
    2 * (|s.pri| + |s.reg|) + if s.hand.Some? then 2 else 0
  }

  /** Keys not marked, and retries still possible, which count twice. */
  function Supply(keys: set<string>, c: Crawl): nat {
    2 * |keys - c.failures.Keys| + |keys - c.visited|
  }

  /** The supply and the outstanding requests. No step raises it: what unmarking a key gives back, the
      request that does it has lost. */
  function Stock(supply: nat, c: Crawl): nat {
    Sum(PusherLives(), c.pushers) + SchedLives(c.sched) + Sum(Lives(), c.workers) + supply
  }

  /** About to mark a key that is marked already. */
  function Stale(cfg: Config, visited: set<string>): Worker -> nat {
    (w: Worker) => if w.AtStoreVisited? && Key(cfg, w.r) in visited then 1 else 0
  }

  function StaleMarks(cfg: Config, c: Crawl): nat { Sum(Stale(cfg, c.visited), c.workers) }

  /** Steps left before the next mark. */
  function WorkerPlace(cfg: Config): Worker -> nat {
    (w: Worker) =>
      match w
      case AtPull => 0
      case AtCheck(_) => 3
      case AtHasVisited(_) => 2
      case AtStoreVisited(_) => 1
      case AtFetch(_) => cfg.maxItems + 11
      case AtParse(_) => cfg.maxItems + 10
      case AtUnvisit(_) => 10
      case AtFailureLock(_) => 9
      case AtRepush(_) => 8
      case AtOut(items) => items + 1
  }

  function PusherPlace(): seq<Request> -> nat { (p: seq<Request>) => 8 * |p| }

  function SchedPlace(s: S.Sched): nat {
    6 * (|s.pri| + |s.reg|) + (if s.hand.Some? then 5 else 0) + if s.selecting then 0 else 1
  }

  function Place(cfg: Config, c: Crawl): nat {
    Sum(PusherPlace(), c.pushers) + SchedPlace(c.sched) + Sum(WorkerPlace(cfg), c.workers) + c.unhandled
  }

  /** More than one mark adds to the place. */
  function MarkRate(cfg: Config): nat { cfg.maxItems + 11 }

  function KeyMeasure(cfg: Config, supply: nat, c: Crawl): nat {
    Charge(Charge(MarkRate(cfg), |c.workers| + 1), Stock(supply, c))
    + Charge(MarkRate(cfg), StaleMarks(cfg, c)) + Place(cfg, c)
  }

  /** A step to a later place, or a mark that uses up stock or a stale mark. */
  ghost predicate Advances(cfg: Config, supply: nat, c: Crawl, supply': nat, d: Crawl) {
    && |d.workers| == |c.workers| && Stock(supply', d) <= Stock(supply, c)
    && (Stock(supply', d) == Stock(supply, c) ==> StaleMarks(cfg, d) <= StaleMarks(cfg, c))
    && if Stock(supply', d) == Stock(supply, c) && StaleMarks(cfg, d) == StaleMarks(cfg, c)
       then Place(cfg, d) < Place(cfg, c)
       else Place(cfg, d) < Place(cfg, c) + MarkRate(cfg)
  }

  lemma {:induction false} ChargeLess(rate: nat, less: nat, more: nat)
    ensures less <= more ==> Charge(rate, less) <= Charge(rate, more)
    ensures less < more ==> Charge(rate, less) + rate <= Charge(rate, more)
  {
    if less < more {
      assert rate * (less + 1) <= rate * more;
    }
  }

  lemma {:induction false} ChargeSum(rate: nat, a: nat, b: nat)
    ensures Charge(rate, a + b) == Charge(rate, a) + Charge(rate, b)
  {
  }

  lemma {:induction false} StaleMarksAtMost(cfg: Config, c: Crawl)
    ensures StaleMarks(cfg, c) <= |c.workers|
  {
    SumBound(Stale(cfg, c.visited), c.workers, 1);
  }

  lemma {:induction false} AdvancesLowers(cfg: Config, supply: nat, c: Crawl, supply': nat, d: Crawl)
    requires Advances(cfg, supply, c, supply', d)
    ensures KeyMeasure(cfg, supply', d) < KeyMeasure(cfg, supply, c)
  {
    StaleMarksAtMost(cfg, d);
    PayAll(MarkRate(cfg), |c.workers|, Stock(supply, c), Stock(supply', d),
           StaleMarks(cfg, c), StaleMarks(cfg, d), Place(cfg, c), Place(cfg, d));
  }

  lemma {:induction false} PayAll(
    rate: nat, n: nat, stock: nat, stock': nat, stale: nat, stale': nat, place: nat, place': nat)
    requires stock' <= stock && stale' <= n && (stock' == stock ==> stale' <= stale)
    requires if stock' == stock && stale' == stale then place' < place else place' < place + rate
    ensures Charge(Charge(rate, n + 1), stock') + Charge(rate, stale') + place'
          < Charge(Charge(rate, n + 1), stock) + Charge(rate, stale) + place
  {
    ChargeLess(Charge(rate, n + 1), stock', stock);
    ChargeLess(rate, stale', stale);
    ChargeLess(rate, stale', n);
    ChargeSum(rate, n, 1);
  }

  // ---------------------------------------------------------------- steps that leave the tables alone

  /** Lives and places outside the workers. */
  function OutsideLives(c: Crawl): nat { Sum(PusherLives(), c.pushers) + SchedLives(c.sched) }

  function OutsidePlace(c: Crawl): nat { Sum(PusherPlace(), c.pushers) + SchedPlace(c.sched) + c.unhandled }

  lemma {:induction false} MoveAdvances(cfg: Config, supply: nat, c: Crawl, d: Crawl, w: nat)
    requires w < |c.workers| && |d.workers| == |c.workers| && d.workers == c.workers[w := d.workers[w]]
    requires d.visited == c.visited && d.failures == c.failures
    requires OutsideLives(d) + Lives()(d.workers[w]) <= OutsideLives(c) + Lives()(c.workers[w])
    requires OutsidePlace(d) + WorkerPlace(cfg)(d.workers[w]) < OutsidePlace(c) + WorkerPlace(cfg)(c.workers[w])
    requires Stale(cfg, c.visited)(d.workers[w]) <= Stale(cfg, c.visited)(c.workers[w])
    ensures Advances(cfg, supply, c, supply, d)
  {
    SumUpdate(Lives(), c.workers, w, d.workers[w]);
    SumUpdate(WorkerPlace(cfg), c.workers, w, d.workers[w]);
    SumUpdate(Stale(cfg, c.visited), c.workers, w, d.workers[w]);
  }

  lemma {:induction false} OutsideAdvances(cfg: Config, supply: nat, c: Crawl, d: Crawl)
    requires d.workers == c.workers && d.visited == c.visited && d.failures == c.failures
    requires OutsideLives(d) <= OutsideLives(c) && OutsidePlace(d) < OutsidePlace(c)
    ensures Advances(cfg, supply, c, supply, d)
  {
  }

  lemma {:induction false} TopMoves(s: S.Sched)
    requires !s.selecting
    ensures var t := S.Next(s, S.Top);
            SchedLives(t) <= SchedLives(s) && SchedPlace(t) < SchedPlace(s)
  {
  }

  lemma {:induction false} AcceptMoves(s: S.Sched, r: Request)
    requires s.selecting
    ensures var t := S.Next(s, S.Recv(r));
            SchedLives(t) == SchedLives(s) + 2 && SchedPlace(t) == SchedPlace(s) + 7
  {
  }

  lemma {:induction false} PushNextAdvances(cfg: Config, supply: nat, c: Crawl, i: nat)
    requires Enabled(cfg, c, PushNext(i))
    ensures Advances(cfg, supply, c, supply, Next(cfg, c, PushNext(i)))
  {
    var p := c.pushers[i];
    AcceptMoves(c.sched, p[0]);
    SumUpdate(PusherLives(), c.pushers, i, p[1..]);
    SumUpdate(PusherPlace(), c.pushers, i, p[1..]);
    OutsideAdvances(cfg, supply, c, Next(cfg, c, PushNext(i)));
  }

  lemma {:induction false} SpawnLives(c: Crawl, d: Crawl, children: seq<Request>)
    requires d.pushers == if children == [] then c.pushers else c.pushers + [children]
    requires d.sched == c.sched && d.unhandled == c.unhandled
    ensures OutsideLives(d) == OutsideLives(c) + 2 * |children| && OutsidePlace(d) == OutsidePlace(c) + 8 * |children|
  {
    SpawnedWeigh(PusherLives(), c.pushers, children);
    SpawnedWeigh(PusherPlace(), c.pushers, children);
  }

  lemma {:induction false} ParseAdvances(cfg: Config, supply: nat, c: Crawl, w: nat, result: Parsed)
    requires Enabled(cfg, c, Parse(w, result)) && result.ParseResult? && cfg.maxChildren <= 1
    ensures Advances(cfg, supply, c, supply, Next(cfg, c, Parse(w, result)))
  {
    var d := Next(cfg, c, Parse(w, result));
    ParseSpawns(cfg, c, w, result);
    SpawnLives(c, d, result.requests);
    MoveAdvances(cfg, supply, c, d, w);
  }

  /** Steps of one worker alone that leave both tables as they are. */
  predicate Plain(cfg: Config, c: Crawl, step: Step) {
    match step
    case Check(_) => true
    case HasVisited(_) => true
    case Fetch(_, _) => true
    case HandResult(_) => true
    case Parse(_, result) => result.ParseError?
    case SetFailure(w) => w < |c.workers| && c.workers[w].AtFailureLock? && Key(cfg, c.workers[w].r) in c.failures
    case _ => false
  }

  lemma {:induction false} PlainKeeps(cfg: Config, c: Crawl, step: Step)
    requires Enabled(cfg, c, step) && Plain(cfg, c, step)
    ensures var d := Next(cfg, c, step);
            && d.sched == c.sched && d.pushers == c.pushers && d.visited == c.visited && d.failures == c.failures
            && (if step.HandResult? then c.unhandled == 0 && d.unhandled == c.workers[step.w].items
                else d.unhandled == c.unhandled)
  {
  }

  lemma {:induction false} PlainMoves(cfg: Config, c: Crawl, step: Step)
    requires Enabled(cfg, c, step) && Plain(cfg, c, step) && WithoutReload(c, step.w)
    ensures var from, to := c.workers[step.w], Next(cfg, c, step).workers[step.w];
            && Lives()(to) <= Lives()(from)
            && WorkerPlace(cfg)(to) + (if step.HandResult? then from.items else 0) < WorkerPlace(cfg)(from)
            && Stale(cfg, c.visited)(to) <= Stale(cfg, c.visited)(from)
  {
  }

  lemma {:induction false} PlainAdvances(cfg: Config, supply: nat, c: Crawl, step: Step)
    requires Enabled(cfg, c, step) && Plain(cfg, c, step) && WithoutReload(c, step.w)
    ensures Advances(cfg, supply, c, supply, Next(cfg, c, step))
  {
    MoverMoves(cfg, c, step);
    PlainKeeps(cfg, c, step);
    PlainMoves(cfg, c, step);
    MoveAdvances(cfg, supply, c, Next(cfg, c, step), step.w);
  }

  lemma {:induction false} RepushAdvances(cfg: Config, supply: nat, c: Crawl, w: nat)
    requires Enabled(cfg, c, Repush(w))
    ensures Advances(cfg, supply, c, supply, Next(cfg, c, Repush(w)))
  {
    AcceptMoves(c.sched, c.workers[w].r);
    MoveAdvances(cfg, supply, c, Next(cfg, c, Repush(w)), w);
  }

  lemma {:induction false} PullAdvances(cfg: Config, supply: nat, c: Crawl, w: nat)
    requires Enabled(cfg, c, Pull(w))
    ensures Advances(cfg, supply, c, supply, Next(cfg, c, Pull(w)))
  {
    MoveAdvances(cfg, supply, c, Next(cfg, c, Pull(w)), w);
  }

  // ---------------------------------------------------------------- steps that change a table

  /** What a step that moves only worker w does to the state around it. */
  ghost predicate Moves(c: Crawl, d: Crawl, w: nat, from: Worker, to: Worker) {
    && w < |c.workers| && c.workers[w] == from && d.workers == c.workers[w := to]
    && d.sched == c.sched && d.pushers == c.pushers && d.unhandled == c.unhandled
  }

  lemma {:induction false} MoveChanges(cfg: Config, c: Crawl, d: Crawl, w: nat, from: Worker, to: Worker)
    requires Moves(c, d, w, from, to)
    ensures Place(cfg, d) + WorkerPlace(cfg)(from) == Place(cfg, c) + WorkerPlace(cfg)(to)
    ensures Stock(0, d) + Lives()(from) == Stock(0, c) + Lives()(to)
    ensures forall supply :: Stock(supply, c) == Stock(0, c) + supply && Stock(supply, d) == Stock(0, d) + supply
  {
    SumUpdate(Lives(), c.workers, w, to);
    SumUpdate(WorkerPlace(cfg), c.workers, w, to);
  }

  /** Marking a key uses up an unmarked key or a stale mark. */
  lemma {:induction false} StoreAdvances(
    cfg: Config, supply: nat, c: Crawl, supply': nat, d: Crawl, w: nat, r: Request)
    requires Moves(c, d, w, AtStoreVisited(r), AtFetch(r))
    requires if Key(cfg, r) in c.visited then d.visited == c.visited && supply' == supply else supply' < supply
    ensures Advances(cfg, supply, c, supply', d)
  {
    MoveChanges(cfg, c, d, w, AtStoreVisited(r), AtFetch(r));
    if Key(cfg, r) in c.visited {
      SumUpdate(Stale(cfg, c.visited), c.workers, w, AtFetch(r));
    }
  }

  /** Unmarking a key gives back at most that key. */
  lemma {:induction false} UnvisitAdvances(
    cfg: Config, supply: nat, c: Crawl, supply': nat, d: Crawl, w: nat, r: Request)
    requires Moves(c, d, w, AtUnvisit(r), AtFailureLock(r)) && d.visited <= c.visited && supply' <= supply + 1
    ensures Advances(cfg, supply, c, supply', d)
  {
    MoveChanges(cfg, c, d, w, AtUnvisit(r), AtFailureLock(r));
    SumPointwise(Stale(cfg, d.visited), Stale(cfg, c.visited), d.workers, c.workers);
  }

  /** A first failure uses up one of the retries still possible. */
  lemma {:induction false} FirstFailureAdvances(
    cfg: Config, supply: nat, c: Crawl, supply': nat, d: Crawl, w: nat, r: Request)
    requires Moves(c, d, w, AtFailureLock(r), AtRepush(r)) && supply' + 2 == supply
    ensures Advances(cfg, supply, c, supply', d)
  {
    MoveChanges(cfg, c, d, w, AtFailureLock(r), AtRepush(r));
  }

  lemma {:induction false} OneLess(keys: set<string>, table: set<string>, key: string)
    requires key in keys && key !in table
    ensures |keys - table| == |keys - (table + {key})| + 1
  {
    assert keys - table == (keys - (table + {key})) + {key};
  }

  lemma {:induction false} OneMore(keys: set<string>, table: set<string>, key: string)
    ensures |keys - (table - {key})| <= |keys - table| + 1
  {
    if key in keys && key in table {
      OneLess(keys, table - {key}, key);
      assert table - {key} + {key} == table;
    } else {
      assert keys - (table - {key}) == keys - table;
    }
  }

  /** Which steps change which table. */
  lemma {:induction false} TablesDelta(cfg: Config, c: Crawl, step: Step)
    requires Enabled(cfg, c, step)
    ensures var d := Next(cfg, c, step);
            && (step.StoreVisited? ==> d.visited == c.visited + {Key(cfg, c.workers[step.w].r)})
            && (step.Unvisit? ==> d.visited == c.visited - {Key(cfg, c.workers[step.w].r)})
            && (!step.StoreVisited? && !step.Unvisit? ==> d.visited == c.visited)
            && (!step.SetFailure? ==> d.failures == c.failures)
  {
  }

  lemma {:induction false} FirstFailureSupply(keys: set<string>, c: Crawl, d: Crawl, key: string, r: Request)
    requires key in keys && key !in c.failures && d.visited == c.visited && d.failures == c.failures[key := r]
    ensures Supply(keys, d) + 2 == Supply(keys, c)
  {
    OneLess(keys, c.failures.Keys, key);
    assert d.failures.Keys == c.failures.Keys + {key};
  }

  lemma {:induction false} MarkSupply(keys: set<string>, c: Crawl, d: Crawl, key: string)
    requires key in keys && d.visited == c.visited + {key} && d.failures == c.failures
    ensures if key in c.visited then d.visited == c.visited && Supply(keys, d) == Supply(keys, c)
            else Supply(keys, d) < Supply(keys, c)
  {
    if key in c.visited {
      assert d.visited == c.visited;
    } else {
      OneLess(keys, c.visited, key);
    }
  }

  lemma {:induction false} UnmarkSupply(keys: set<string>, c: Crawl, d: Crawl, key: string)
    requires d.visited == c.visited - {key} && d.failures == c.failures
    ensures Supply(keys, d) <= Supply(keys, c) + 1
  {
    OneMore(keys, c.visited, key);
  }

  /** What each step does to the supply. */
  lemma {:induction false} SupplyDelta(cfg: Config, keys: set<string>, c: Crawl, d: Crawl, step: Step)
    requires Covers(cfg, keys) && Enabled(cfg, c, step) && d == Next(cfg, c, step)
    ensures var before, after := Supply(keys, c), Supply(keys, d);
            match step
            case StoreVisited(w) =>
              if Key(cfg, c.workers[w].r) in c.visited then d.visited == c.visited && after == before
              else after < before
            case Unvisit(_) => d.visited <= c.visited && after <= before + 1
            case SetFailure(w) =>
              if Key(cfg, c.workers[w].r) in c.failures then after == before else after + 2 == before
            case _ => after == before
  {
    TablesDelta(cfg, c, step);
    match step
    case StoreVisited(w) => MarkSupply(keys, c, d, Key(cfg, c.workers[w].r));
    case Unvisit(w) => UnmarkSupply(keys, c, d, Key(cfg, c.workers[w].r));
    case SetFailure(w) =>
      FailureDelta(cfg, c, step);
      if Key(cfg, c.workers[w].r) !in c.failures {
        FirstFailureSupply(keys, c, d, Key(cfg, c.workers[w].r), c.workers[w].r);
      }
    case _ =>
  }

  lemma {:induction false} FullSupply(keys: set<string>, c: Crawl)
    requires c.visited == {} && c.failures == map[]
    ensures Supply(keys, c) == 3 * |keys|
  {
    assert keys - c.visited == keys && keys - c.failures.Keys == keys;
  }

  // ---------------------------------------------------------------- every run

  function NoReload(): Task -> bool { (t: Task) => !t.reload }

  lemma {:induction false} HeldWithoutReload(cfg: Config, c: Crawl, w: nat)
    requires Inv(cfg, c) && Tasked(c, NoReload()) && w < |c.workers| && !c.workers[w].AtRepush?
    ensures WithoutReload(c, w)
  {
    if !c.workers[w].AtPull? && !c.workers[w].AtOut? {
      HeldWasCreated(cfg, c, w);
    }
  }

  lemma {:induction false} StepAdvances(cfg: Config, keys: set<string>, c: Crawl, step: Step)
    requires Inv(cfg, c) && Tasked(c, NoReload()) && Covers(cfg, keys) && cfg.maxChildren <= 1
    requires Enabled(cfg, c, step)
    ensures Advances(cfg, Supply(keys, c), c, Supply(keys, Next(cfg, c, step)), Next(cfg, c, step))
  {
    var d := Next(cfg, c, step);
    var before, after := Supply(keys, c), Supply(keys, d);
    SupplyDelta(cfg, keys, c, d, step);
    if Plain(cfg, c, step) {
      HeldWithoutReload(cfg, c, step.w);
      PlainAdvances(cfg, before, c, step);
    } else {
      match step
      case Scheduling =>
        TopMoves(c.sched);
        OutsideAdvances(cfg, before, c, d);
      case PushNext(i) => PushNextAdvances(cfg, before, c, i);
      case Repush(w) => RepushAdvances(cfg, before, c, w);
      case Pull(w) => PullAdvances(cfg, before, c, w);
      case StoreVisited(w) => StoreAdvances(cfg, before, c, after, d, w, c.workers[w].r);
      case Unvisit(w) => UnvisitAdvances(cfg, before, c, after, d, w, c.workers[w].r);
      case Parse(w, result) => ParseAdvances(cfg, before, c, w, result);
      case SetFailure(w) => FirstFailureAdvances(cfg, before, c, after, d, w, c.workers[w].r);
      case SaveItem => OutsideAdvances(cfg, before, c, d);
      case _ =>
    }
  }

  lemma {:induction false} RunAdvances(cfg: Config, keys: set<string>, c: Crawl, steps: seq<Step>)
    requires Inv(cfg, c) && Tasked(c, NoReload()) && Covers(cfg, keys) && cfg.maxChildren <= 1
    requires Exec(cfg, c, steps).Some?
    ensures var d := Exec(cfg, c, steps).value;
            && Inv(cfg, d) && Tasked(d, NoReload())
            && |steps| + KeyMeasure(cfg, Supply(keys, d), d) <= KeyMeasure(cfg, Supply(keys, c), c)
  {
    if |steps| == 0 {
    } else {
      var front, step := steps[..|steps| - 1], steps[|steps| - 1];
      RunAdvances(cfg, keys, c, front);
      var before := Exec(cfg, c, front).value;
      var after := Next(cfg, before, step);
      StepKeepsInv(cfg, before, step);
      StepKeepsTasked(cfg, before, step, NoReload());
      StepAdvances(cfg, keys, before, step);
      AdvancesLowers(cfg, Supply(keys, before), before, Supply(keys, after), after);
    }
  }

  /** With at most one child per page and finitely many keys, no run of a crawl without Reload is longer
      than a number fixed by the seeds, the workers and the number of keys, whatever the depth limit. */
  lemma {:induction false} KeysRunOut(
    cfg: Config, keys: set<string>, seeds: seq<Request>, workCount: nat, steps: seq<Step>)
    requires Covers(cfg, keys) && cfg.maxChildren <= 1 && forall r | r in seeds :: !r.task.reload
    requires Exec(cfg, Start(seeds, workCount), steps).Some?
    ensures |steps| <= KeyMeasure(cfg, 3 * |keys|, Start(seeds, workCount))
  {
    StartInv(cfg, seeds, workCount);
    RunAdvances(cfg, keys, Start(seeds, workCount), steps);
    FullSupply(keys, Start(seeds, workCount));
  }
}
