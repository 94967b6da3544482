/** The crawler's shared tables as an object, one turn of the worker loop over them, and the steps of
    Engine.dfy that turn amounts to when nobody interferes (engine/schedule.go, CreateWork, HasVisited,
    StoreVisited, SetFailure). */
module EngineWorker {
  import opened Spider
  import opened Engine
  import S = Scheduler

  /** What a worker does next and what it leaves behind: the tables and the requests given to a new
      Push goroutine. */
  datatype Turn = Turn(visited: set<string>, failures: map<string, Request>, next: Worker, spawned: seq<Request>)

  /** One turn of CreateWork on a pulled request. */
  function TurnOf(cfg: Config, visited: set<string>, failures: map<string, Request>, r: Request,
                  fetched: Fetched, result: Parsed): Turn
  {
    if !r.Check() || (!r.task.reload && Key(cfg, r) in visited) then Turn(visited, failures, AtPull, [])
    else FetchTurnOf(cfg, visited, failures, r, fetched, result)
  }

  /** Its part from the mark in the visited table on. */
  function FetchTurnOf(cfg: Config, visited: set<string>, failures: map<string, Request>, r: Request,
                       fetched: Fetched, result: Parsed): Turn
  {
    var key := Key(cfg, r);
    if FetchFailed(fetched) then
      var left := if r.task.reload then visited + {key} else visited - {key};
      if key in failures then Turn(left, failures, AtPull, [])
      else Turn(left, failures[key := r], AtRepush(r), [])
    else if result.ParseError? then Turn(visited + {key}, failures, AtPull, [])
    else Turn(visited + {key}, failures, AtOut(result.items), result.requests)
  }

  /** The steps of that turn. */
  function StepsOf(cfg: Config, visited: set<string>, r: Request, w: nat, fetched: Fetched, result: Parsed): seq<Step> {
    if !r.Check() then [Check(w)]
    else if !r.task.reload && Key(cfg, r) in visited then [Check(w), HasVisited(w)]
    else [Check(w), HasVisited(w)] + FetchSteps(r, w, fetched, result)
  }

  function FetchSteps(r: Request, w: nat, fetched: Fetched, result: Parsed): seq<Step> {
    [StoreVisited(w), Fetch(w, fetched)]
    + if !FetchFailed(fetched) then [Parse(w, result)]
      else if r.task.reload then [SetFailure(w)]
      else [Unvisit(w), SetFailure(w)]
  }

  class Crawler {
    const cfg: Config
    var Visited: map<string, bool>
    var failures: map<string, Request>

    ghost function VisitedKeys(): set<string>
      reads this`Visited
    {
      set k | k in Visited && Visited[k]
    }

    constructor (cfg: Config)
      ensures this.cfg == cfg && VisitedKeys() == {} && failures == map[]
    {
      this.cfg, Visited, failures := cfg, map[], map[];
    }

    /** A missing key reads as false. */
    method HasVisited(r: Request) returns (visited: bool)
      ensures visited <==> Key(cfg, r) in VisitedKeys()
    {
      var unique := Key(cfg, r);
      visited := unique in Visited && Visited[unique];
    }

    method StoreVisited(reqs: seq<Request>)
      modifies this`Visited
      ensures VisitedKeys() == old(VisitedKeys()) + set r | r in reqs :: Key(cfg, r)
    {
      for i := 0 to |reqs|
        invariant VisitedKeys() == old(VisitedKeys()) + set r | r in reqs[..i] :: Key(cfg, r)
      {
        ghost var before := VisitedKeys();
        Visited := Visited[Key(cfg, reqs[i]) := true];
        assert VisitedKeys() == before + {Key(cfg, reqs[i])};
        assert reqs[..i + 1] == reqs[..i] + [reqs[i]];
      }
      assert reqs[..|reqs|] == reqs;
    }

    /** Both lock sections of SetFailure; the request is to be pushed again on its key's first failure. */
    method SetFailure(r: Request) returns (push: bool)
      modifies this
      ensures VisitedKeys() == if r.task.reload then old(VisitedKeys()) else old(VisitedKeys()) - {Key(cfg, r)}
      ensures push <==> Key(cfg, r) !in old(failures)
      ensures failures == if push then old(failures)[Key(cfg, r) := r] else old(failures)
    {
      if !r.task.reload {
        Visited := Visited - {Key(cfg, r)};
      }
      push := Key(cfg, r) !in failures;
      if push {
        failures := failures[Key(cfg, r) := r];
      }
    }

    /** One turn of the loop of CreateWork, undisturbed: what it filters out, what counts as a failure, what
        it leaves in both tables, and where it goes on. */
    method Work(r: Request, fetched: Fetched, result: Parsed) returns (next: Worker, spawned: seq<Request>)
      modifies this
      ensures Turn(VisitedKeys(), failures, next, spawned)
           == TurnOf(cfg, old(VisitedKeys()), old(failures), r, fetched, result)
      ensures var key := cfg.digest(r.url + r.verb);
              if r.depth > r.task.maxDepth || (!r.task.reload && key in old(VisitedKeys())) then
                && VisitedKeys() == old(VisitedKeys()) && failures == old(failures)
                && next == AtPull && spawned == []
              else if fetched.Body? && fetched.length >= 6000 then
                && VisitedKeys() == old(VisitedKeys()) + {key} && failures == old(failures)
                && next == (if result.ParseError? then AtPull else AtOut(result.items))
                && spawned == if result.ParseError? then [] else result.requests
              else
                && VisitedKeys() == (if r.task.reload then old(VisitedKeys()) + {key} else old(VisitedKeys()) - {key})
                && failures == (if key in old(failures) then old(failures) else old(failures)[key := r])
                && next == (if key in old(failures) then AtPull else AtRepush(r)) && spawned == []
    {
      next, spawned := AtPull, [];
      if !r.Check() {
        return;
      }
      var visited := HasVisited(r);
      if !r.task.reload && visited {
        return;
      }
      StoreVisited([r]);
      assert VisitedKeys() == old(VisitedKeys()) + {Key(cfg, r)};
      if FetchFailed(fetched) {
        var push := SetFailure(r);
        next := if push then AtRepush(r) else AtPull;
        assert old(VisitedKeys()) + {Key(cfg, r)} - {Key(cfg, r)} == old(VisitedKeys()) - {Key(cfg, r)};
        return;
      }
      if result.ParseError? {
        return;
      }
      next, spawned := AtOut(result.items), result.requests;
    }
  }

  /** A run that did to the crawl exactly what the turn of worker w says. */
  ghost predicate DoesTurn(c: Crawl, run: Option<Crawl>, w: nat, turn: Turn) {
    && w < |c.workers| && run.Some?
    && run.value.visited == turn.visited && run.value.failures == turn.failures
    && run.value.workers == c.workers[w := turn.next]
    && run.value.pushers == (if turn.spawned == [] then c.pushers else c.pushers + [turn.spawned])
    && run.value.sched == c.sched && run.value.unhandled == c.unhandled
    && run.value.lockedBy == if turn.next.AtRepush? then Some(w) else c.lockedBy
  }

  /** In the step system, a worker that pulled a request and is not interfered with does exactly what
      the loop body does, and nothing else in the crawl changes. */
  lemma {:induction false} TurnIsRun(cfg: Config, c: Crawl, w: nat, fetched: Fetched, result: Parsed)
    requires w < |c.workers| && c.workers[w].AtCheck? && c.lockedBy.None?
    requires ResultOk(cfg, c.workers[w].r, result)
    ensures var r := c.workers[w].r;
            DoesTurn(c, Exec(cfg, c, StepsOf(cfg, c.visited, r, w, fetched, result)), w,
                     TurnOf(cfg, c.visited, c.failures, r, fetched, result))
  {
    var r := c.workers[w].r;
    ChecksRun(cfg, c, w, r);
    if r.Check() && (r.task.reload || Key(cfg, r) !in c.visited) {
      var c2 := Move(c, w, AtStoreVisited(r));
      FetchTurnIsRun(cfg, c2, w, r, fetched, result);
      ExecConcat(cfg, c, [Check(w), HasVisited(w)], FetchSteps(r, w, fetched, result));
    }
  }

  /** The two tests a pulled request has to pass. */
  lemma {:induction false} ChecksRun(cfg: Config, c: Crawl, w: nat, r: Request)
    requires w < |c.workers| && c.workers[w] == AtCheck(r)
    ensures var first, second := Exec(cfg, c, [Check(w)]), Exec(cfg, c, [Check(w), HasVisited(w)]);
            if !r.Check() then first.Some? && first.value == Move(c, w, AtPull).(log := first.value.log)
            else if !r.task.reload && Key(cfg, r) in c.visited
            then second.Some? && second.value == Move(c, w, AtPull).(log := second.value.log)
            else second == Some(Move(c, w, AtStoreVisited(r)))
  {
    ExecOne(cfg, c, Check(w));
    ExecSnoc(cfg, c, [Check(w)], HasVisited(w));
    assert [Check(w)] + [HasVisited(w)] == [Check(w), HasVisited(w)];
    assert c.workers[w := AtHasVisited(r)][w := AtPull] == c.workers[w := AtPull];
    assert c.workers[w := AtHasVisited(r)][w := AtStoreVisited(r)] == c.workers[w := AtStoreVisited(r)];
  }

  lemma {:induction false} FetchTurnIsRun(cfg: Config, c: Crawl, w: nat, r: Request, fetched: Fetched, result: Parsed)
    requires w < |c.workers| && c.workers[w] == AtStoreVisited(r) && c.lockedBy.None? && ResultOk(cfg, r, result)
    ensures DoesTurn(c, Exec(cfg, c, FetchSteps(r, w, fetched, result)), w,
                     FetchTurnOf(cfg, c.visited, c.failures, r, fetched, result))
  {
    var c2 := Next(cfg, Next(cfg, c, StoreVisited(w)), Fetch(w, fetched));
    var two := [StoreVisited(w), Fetch(w, fetched)];
    ExecTwo(cfg, c, StoreVisited(w), Fetch(w, fetched));
    if !FetchFailed(fetched) {
      ParseTurn(cfg, c, c2, w, r, result, fetched);
      ExecSnoc(cfg, c, two, Parse(w, result));
    } else {
      var rest := FetchSteps(r, w, fetched, result)[2..];
      assert FetchSteps(r, w, fetched, result) == two + rest;
      ExecConcat(cfg, c, two, rest);
      FailTurn(cfg, c, c2, w, r, result, fetched);
      assert rest == if r.task.reload then [SetFailure(w)] else [Unvisit(w), SetFailure(w)];
    }
  }

  lemma {:induction false} ParseTurn(
    cfg: Config, c: Crawl, c2: Crawl, w: nat, r: Request, result: Parsed, fetched: Fetched)
    requires w < |c.workers| && ResultOk(cfg, r, result)
    requires c2 == c.(workers := c.workers[w := AtParse(r)], visited := c.visited + {Key(cfg, r)})
    requires !FetchFailed(fetched)
    ensures Enabled(cfg, c2, Parse(w, result))
    ensures DoesTurn(c, Some(Next(cfg, c2, Parse(w, result))), w,
                     FetchTurnOf(cfg, c.visited, c.failures, r, fetched, result))
  {
  }

  lemma {:induction false} FailTurn(
    cfg: Config, c: Crawl, c2: Crawl, w: nat, r: Request, result: Parsed, fetched: Fetched)
    requires w < |c.workers| && c.lockedBy.None?
    requires c2 == c.(workers := c.workers[w := if r.task.reload then AtFailureLock(r) else AtUnvisit(r)],
                      visited := c.visited + {Key(cfg, r)})
    requires FetchFailed(fetched)
    ensures DoesTurn(c, Exec(cfg, c2, if r.task.reload then [SetFailure(w)] else [Unvisit(w), SetFailure(w)]), w,
                     FetchTurnOf(cfg, c.visited, c.failures, r, fetched, result))
  {
    if r.task.reload {
      RecordTurn(cfg, c, c2, w, r, result, fetched);
    } else {
      var c3 := Next(cfg, c2, Unvisit(w));
      ExecOne(cfg, c2, Unvisit(w));
      ExecConcat(cfg, c2, [Unvisit(w)], [SetFailure(w)]);
      assert [Unvisit(w)] + [SetFailure(w)] == [Unvisit(w), SetFailure(w)];
      assert (c.visited + {Key(cfg, r)}) - {Key(cfg, r)} == c.visited - {Key(cfg, r)};
      assert c3.workers == c.workers[w := AtFailureLock(r)];
      RecordTurn(cfg, c, c3, w, r, result, fetched);
    }
  }

  lemma {:induction false} RecordTurn(
    cfg: Config, c: Crawl, c3: Crawl, w: nat, r: Request, result: Parsed, fetched: Fetched)
    requires w < |c.workers| && c.lockedBy.None?
    requires c3 == c.(workers := c.workers[w := AtFailureLock(r)],
                      visited := if r.task.reload then c.visited + {Key(cfg, r)} else c.visited - {Key(cfg, r)})
    requires FetchFailed(fetched)
    ensures DoesTurn(c, Exec(cfg, c3, [SetFailure(w)]), w,
                     FetchTurnOf(cfg, c.visited, c.failures, r, fetched, result))
  {
    ExecOne(cfg, c3, SetFailure(w));
  }

  // ---------------------------------------------------------------- two workers on one key

  /** Two workers whose requests are not filtered can both pass their tests before either marks its key. */
  lemma {:induction false} BothPassTheChecks(cfg: Config, c: Crawl, r: Request, s: Request)
    requires |c.workers| >= 2 && c.workers[0] == AtCheck(r) && c.workers[1] == AtCheck(s) && r.Check() && s.Check()
    requires (r.task.reload || Key(cfg, r) !in c.visited) && (s.task.reload || Key(cfg, s) !in c.visited)
    ensures Exec(cfg, c, [Check(0), HasVisited(0)] + [Check(1), HasVisited(1)])
         == Some(c.(workers := c.workers[0 := AtStoreVisited(r)][1 := AtStoreVisited(s)]))
  {
    ChecksRun(cfg, c, 0, r);
    ChecksRun(cfg, Move(c, 0, AtStoreVisited(r)), 1, s);
    ExecConcat(cfg, c, [Check(0), HasVisited(0)], [Check(1), HasVisited(1)]);
  }

  // ---------------------------------------------------------------- reaching a worker

  /** The steps that take one request from a Push goroutine through an idle scheduler to a worker. */
  function DeliverSteps(i: nat, w: nat): seq<Step> {
    [PushNext(i), Scheduling] + [Pull(w), Scheduling]
  }

  lemma {:induction false} AcceptRun(cfg: Config, c: Crawl, i: nat, r: Request, rest: seq<Request>)
    requires S.Idle(c.sched) && i < |c.pushers| && c.pushers[i] == [r] + rest && r.Check()
    ensures var run := Exec(cfg, c, [PushNext(i), Scheduling]);
            && run.Some? && run.value == c.(sched := run.value.sched, pushers := c.pushers[i := rest])
            && S.Idle(run.value.sched.(hand := None)) && run.value.sched.hand == Some(r)
            && run.value.sched.delivered == c.sched.delivered
  {
    ExecTwo(cfg, c, PushNext(i), Scheduling);
  }

  lemma {:induction false} RepushRun(cfg: Config, c: Crawl, w: nat, r: Request)
    requires S.Idle(c.sched) && w < |c.workers| && c.workers[w] == AtRepush(r) && r.Check()
    ensures var run := Exec(cfg, c, [Repush(w), Scheduling]);
            && run.Some?
            && run.value == Move(c, w, AtPull).(sched := run.value.sched, lockedBy := None)
            && S.Idle(run.value.sched.(hand := None)) && run.value.sched.hand == Some(r)
  {
    ExecTwo(cfg, c, Repush(w), Scheduling);
  }

  lemma {:induction false} PullRun(cfg: Config, c: Crawl, w: nat, r: Request)
    requires S.Idle(c.sched.(hand := None)) && c.sched.hand == Some(r)
    requires w < |c.workers| && c.workers[w].AtPull?
    ensures var run := Exec(cfg, c, [Pull(w), Scheduling]);
            && run.Some? && run.value == c.(sched := run.value.sched, workers := c.workers[w := AtCheck(r)])
            && S.Idle(run.value.sched) && run.value.sched.delivered == c.sched.delivered + [r]
  {
    ExecTwo(cfg, c, Pull(w), Scheduling);
  }

  lemma {:induction false} DeliverRun(cfg: Config, c: Crawl, i: nat, w: nat, r: Request, rest: seq<Request>)
    requires S.Idle(c.sched) && i < |c.pushers| && c.pushers[i] == [r] + rest && r.Check()
    requires w < |c.workers| && c.workers[w].AtPull?
    ensures var run := Exec(cfg, c, DeliverSteps(i, w));
            && run.Some? && S.Idle(run.value.sched)
            && run.value == c.(sched := run.value.sched, pushers := c.pushers[i := rest],
                               workers := c.workers[w := AtCheck(r)])
            && run.value.sched.delivered == c.sched.delivered + [r]
  {
    AcceptRun(cfg, c, i, r, rest);
    ExecConcat(cfg, c, [PushNext(i), Scheduling], [Pull(w), Scheduling]);
    PullRun(cfg, Exec(cfg, c, [PushNext(i), Scheduling]).value, w, r);
  }
}
