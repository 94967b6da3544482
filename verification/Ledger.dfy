/** What a master holds, on values: its resource map, the key-value store, and the payload of each live
    node. The properties of every run of operations are proved here; Master.dfy ties the classes to it. */
module Ledger {
  import opened Spider
  import opened Identifiers
  import opened Placement
  import opened Text

  datatype Record = Record(id: string, name: string, assignedNode: string, creationTime: int)

  /** What a stored value decodes to: a resource, JSON null, or nothing (an election key). */
  datatype Value = Encoded(rec: Record) | Null | Undecodable

  type Store = map<string, Value>

  type Cache = map<string, Record>

  /** What the id generator, the clock and the store answer at each call. */
  datatype Env = Env(
    idAt: nat -> string, clockAt: nat -> int, putOk: nat -> bool, deleteOk: nat -> bool, getOk: nat -> bool)

  // ---------------------------------------------------------------- cache and store

  /** Keys under the resource prefix that decode carry their own path. Election keys do not decode. */
  ghost predicate Canonical(kv: Store) {
    forall key | key in kv && RESOURCEPATH <= key && kv[key].Encoded? :: key == GetResourcePath(kv[key].rec.name)
  }

  ghost predicate Stored(kv: Store, name: string) {
    GetResourcePath(name) in kv && kv[GetResourcePath(name)].Encoded?
  }

  /** The resource map is exactly what the store decodes to. */
  ghost predicate Agree(cache: Cache, kv: Store) {
    && Canonical(kv)
    && (forall name :: name in cache <==> Stored(kv, name))
    && (forall name | name in cache :: kv[GetResourcePath(name)] == Encoded(cache[name]))
  }

  /** A store determines the map that agrees with it, so two masters that agree with one store hold
      the same resources. */
  lemma {:induction false} AgreementIsUnique(a: Cache, b: Cache, kv: Store)
    requires Agree(a, kv) && Agree(b, kv)
    ensures a == b
  {
    forall name
      ensures name in a <==> name in b
      ensures name in a ==> a[name] == b[name]
    {
      assert name in a <==> Stored(kv, name);
    }
  }

  lemma {:induction false} PutAgrees(cache: Cache, kv: Store, rec: Record)
    requires Agree(cache, kv)
    ensures Agree(cache[rec.name := rec], kv[GetResourcePath(rec.name) := Encoded(rec)])
  {
    var after := kv[GetResourcePath(rec.name) := Encoded(rec)];
    forall name
      ensures name in cache[rec.name := rec] <==> Stored(after, name)
      ensures name in cache && name != rec.name ==> after[GetResourcePath(name)] == Encoded(cache[name])
    {
      PathsDiffer(name, rec.name);
      assert name in cache <==> Stored(kv, name);
    }
  }

  lemma {:induction false} RemovalAgrees(cache: Cache, kv: Store, gone: string)
    requires Agree(cache, kv)
    ensures Agree(cache - {gone}, kv - {GetResourcePath(gone)})
  {
    var after := kv - {GetResourcePath(gone)};
    forall name
      ensures name in cache - {gone} <==> Stored(after, name)
      ensures name in cache - {gone} ==> after[GetResourcePath(name)] == Encoded(cache[name])
    {
      PathsDiffer(name, gone);
      assert name in cache <==> Stored(kv, name);
    }
  }

  // ---------------------------------------------------------------- decoding the store

  /** The store answers the prefix query with this record under this key. */
  ghost predicate Answers(kv: Store, key: string, rec: Record) {
    key in kv && RESOURCEPATH <= key && kv[key] == Encoded(rec)
  }

  /** `recs` holds, by name, records answered under the given keys, one for every name among them. */
  ghost predicate DecodedFrom(recs: Cache, kv: Store, keys: set<string>) {
    && (forall n | n in recs :: recs[n].name == n && exists key :: key in keys && Answers(kv, key, recs[n]))
    && (forall key, rec | key in keys && Answers(kv, key, rec) :: rec.name in recs)
  }

  lemma {:induction false} DecodeOne(recs: Cache, kv: Store, keys: set<string>, key: string)
    requires DecodedFrom(recs, kv, keys) && key in kv
    ensures DecodedFrom(if RESOURCEPATH <= key && kv[key].Encoded? then recs[kv[key].rec.name := kv[key].rec] else recs,
                        kv, keys + {key})
  {
    if RESOURCEPATH <= key && kv[key].Encoded? {
      assert Answers(kv, key, kv[key].rec);
    }
  }

  /** On a canonical store, decoding everything gives the map that agrees with it. */
  lemma {:induction false} DecodedAgrees(recs: Cache, kv: Store)
    requires Canonical(kv) && DecodedFrom(recs, kv, kv.Keys)
    ensures Agree(recs, kv)
  {
    forall name
      ensures name in recs <==> Stored(kv, name)
      ensures name in recs ==> kv[GetResourcePath(name)] == Encoded(recs[name])
    {
      if name in recs {
        var key :| key in kv.Keys && Answers(kv, key, recs[name]);
      }
      if Stored(kv, name) {
        var rec := kv[GetResourcePath(name)].rec;
        PathsDiffer(name, rec.name);
        assert Answers(kv, GetResourcePath(name), rec);
      }
    }
  }

  // ---------------------------------------------------------------- payload accounting

  /** The node a resource is charged to on deletion; an assignment without a node id is an error. */
  function ChargedTo(rec: Record): Option<string> {
    if rec.assignedNode == "" then None else GetNodeID(rec.assignedNode)
  }

  /** The node a reload or a reassignment looks up: there an error only leaves the id empty. */
  function LookedUp(rec: Record): Option<string> {
    if rec.assignedNode == "" then None
    else match GetNodeID(rec.assignedNode) case Some(id) => Some(id) case None => Some("")
  }

  /** Both read the assignment up to its first bar. Without a bar they differ: deletion charges nobody, and the
      others look up the empty id. */
  lemma {:induction false} LookupSpelledOut(rec: Record)
    ensures ChargedTo(rec) ==
            if rec.assignedNode == "" || '|' !in rec.assignedNode then None
            else Some(rec.assignedNode[..IndexOf(rec.assignedNode, '|')])
    ensures LookedUp(rec) ==
            if rec.assignedNode == "" then None
            else if '|' !in rec.assignedNode then Some("")
            else Some(rec.assignedNode[..IndexOf(rec.assignedNode, '|')])
  {
    NodeIDIsBeforeBar(rec.assignedNode);
  }

  /** Names in the cache assigned to the node. */
  ghost function On(cache: Cache, node: string): set<string> {
    set name | name in cache && LookedUp(cache[name]) == Some(node)
  }

  /** Payload in excess of the resources assigned. */
  ghost function Drift(cache: Cache, loads: Loads, node: string): int
    requires node in loads
  {
    loads[node] - |On(cache, node)|
  }

  ghost predicate SameDrift(cache: Cache, loads: Loads, cache': Cache, loads': Loads) {
    && loads'.Keys == loads.Keys
    && forall node | node in loads :: Drift(cache', loads', node) == Drift(cache, loads, node)
  }

  /** The name is held, and its resource is on a live node. */
  predicate HeldLive(cache: Cache, live: set<string>, name: string) {
    name in cache && LookedUp(cache[name]).Some? && LookedUp(cache[name]).value in live
  }

  /** Placing a resource on a node whose id has no '|' raises the drift of the node that held the name
      before, if any, and of no other. */
  lemma {:induction false} AdditionDrift(cache: Cache, loads: Loads, rec: Record, pick: string, address: string)
    requires pick in loads && '|' !in pick && rec.assignedNode == Assigned(pick, address)
    ensures forall node | node in loads ::
              Drift(cache[rec.name := rec], Bump(loads, pick), node) ==
              Drift(cache, loads, node) + if rec.name in On(cache, node) then 1 else 0
  {
    NodeIDRoundTrip(pick, address);
    assert rec.assignedNode != "";
    forall node | node in loads
      ensures Drift(cache[rec.name := rec], Bump(loads, pick), node) ==
              Drift(cache, loads, node) + if rec.name in On(cache, node) then 1 else 0
    {
      OnUpdate(cache, rec, node);
    }
  }

  /** So it keeps every node's drift exactly when the name was not held by a live node. */
  lemma {:induction false} AddDrift(cache: Cache, loads: Loads, rec: Record, pick: string, address: string)
    requires pick in loads && '|' !in pick && rec.assignedNode == Assigned(pick, address)
    ensures SameDrift(cache, loads, cache[rec.name := rec], Bump(loads, pick)) <==>
            !HeldLive(cache, loads.Keys, rec.name)
  {
    AdditionDrift(cache, loads, rec, pick, address);
    if HeldLive(cache, loads.Keys, rec.name) {
      assert rec.name in On(cache, LookedUp(cache[rec.name]).value);
    }
  }

  lemma {:induction false} OnUpdate(cache: Cache, rec: Record, node: string)
    ensures |On(cache[rec.name := rec], node)| ==
            |On(cache, node)| - (if rec.name in On(cache, node) then 1 else 0)
                              + (if LookedUp(rec) == Some(node) then 1 else 0)
  {
    var before := On(cache, node);
    OnUpdateSet(cache, rec, node);
    assert |before - {rec.name}| == |before| - if rec.name in before then 1 else 0;
  }

  lemma {:induction false} OnUpdateSet(cache: Cache, rec: Record, node: string)
    ensures On(cache[rec.name := rec], node) ==
            (On(cache, node) - {rec.name}) + (if LookedUp(rec) == Some(node) then {rec.name} else {})
  {
    var after := cache[rec.name := rec];
    forall name
      ensures name in On(after, node) <==>
              if name == rec.name then LookedUp(rec) == Some(node) else name in On(cache, node)
    {
      if name != rec.name && name in cache {
        assert after[name] == cache[name];
      }
    }
  }

  /** The payload map after a deletion: the node of the deleted resource, when live, loses one unit. */
  function Released(loads: Loads, rec: Record): Loads {
    var node := ChargedTo(rec);
    if node.Some? && node.value in loads then loads[node.value := loads[node.value] - 1] else loads
  }

  /** Deleting a resource keeps every node's drift, given that its assignment names a node. */
  lemma {:induction false} DeleteDrift(cache: Cache, loads: Loads, name: string)
    requires name in cache && ChargedTo(cache[name]) == LookedUp(cache[name])
    ensures SameDrift(cache, loads, cache - {name}, Released(loads, cache[name]))
  {
    forall node | node in loads
      ensures Drift(cache - {name}, Released(loads, cache[name]), node) == Drift(cache, loads, node)
    {
      assert On(cache - {name}, node) == On(cache, node) - {name};
    }
  }

  // ---------------------------------------------------------------- runs of one active master

  datatype State = State(cache: Cache, kv: Store, loads: Loads)

  /** An addition that picked a node, or found the put failing; a deletion, or one the store refused. */
  datatype Op =
    | Add(name: string, id: string, time: int, pick: string, address: string, stored: bool)
    | Delete(name: string, removed: bool)

  ghost predicate Legal(s: State, op: Op) {
    match op
    case Add(_, _, _, pick, _, _) => Least(s.loads, pick)
    case Delete(name, _) => name in s.cache
  }

  function RecordOf(op: Op): Record
    requires op.Add?
  {
    Record(op.id, op.name, Assigned(op.pick, op.address), op.time)
  }

  ghost function Next(s: State, op: Op): State
    requires Legal(s, op)
  {
    match op
    case Add(name, _, _, pick, _, stored) =>
      if stored
      then State(s.cache[name := RecordOf(op)], s.kv[GetResourcePath(name) := Encoded(RecordOf(op))],
          Bump(s.loads, pick))
      else s
    case Delete(name, removed) =>
      if removed
      then State(s.cache - {name}, s.kv - {GetResourcePath(name)}, Released(s.loads, s.cache[name]))
      else s
  }

  /** A successful addition, field by field. */
  lemma {:induction false} Added(s: State, cache: Cache, kv: Store, loads: Loads, op: Op)
    requires op.Add? && op.stored && Legal(s, op)
    requires cache == s.cache[op.name := RecordOf(op)] && loads == Bump(s.loads, op.pick)
    requires kv == s.kv[GetResourcePath(op.name) := Encoded(RecordOf(op))]
    ensures State(cache, kv, loads) == Next(s, op)
  {
  }

  lemma {:induction false} Removed(s: State, cache: Cache, kv: Store, loads: Loads, op: Op)
    requires op.Delete? && op.removed && Legal(s, op)
    requires cache == s.cache - {op.name} && kv == s.kv - {GetResourcePath(op.name)}
    requires loads == Released(s.loads, s.cache[op.name])
    ensures State(cache, kv, loads) == Next(s, op)
  {
  }

  ghost function Exec(s: State, ops: seq<Op>): Option<State> {
    if |ops| == 0 then Some(s)
    else
      var before := Exec(s, ops[..|ops| - 1]);
      if before.Some? && Legal(before.value, ops[|ops| - 1])
      then Some(Next(before.value, ops[|ops| - 1]))
      else None
  }

  lemma {:induction false} ExecSnoc(s: State, ops: seq<Op>, op: Op)
    ensures Exec(s, ops + [op]) ==
            var before := Exec(s, ops);
            if before.Some? && Legal(before.value, op) then Some(Next(before.value, op)) else None
  {
    assert (ops + [op])[..|ops|] == ops;
  }

  /** After any run of successful and failed additions and deletions the resource map is still exactly
      what the store decodes to. */
  lemma {:induction false} RunsAgree(s: State, ops: seq<Op>)
    requires Agree(s.cache, s.kv) && Exec(s, ops).Some?
    ensures Agree(Exec(s, ops).value.cache, Exec(s, ops).value.kv)
  {
    if |ops| == 0 {
    } else {
      var op := ops[|ops| - 1];
      RunsAgree(s, ops[..|ops| - 1]);
      var before := Exec(s, ops[..|ops| - 1]).value;
      if op.Add? {
        PutAgrees(before.cache, before.kv, RecordOf(op));
      } else {
        RemovalAgrees(before.cache, before.kv, op.name);
      }
    }
  }

  /** Failover: whatever the active master did, a master that loads the store afterwards holds the same
      resources. `loaded` is any map that agrees with the store, which is what a load establishes. */
  lemma {:induction false} HandoffKeepsResources(s: State, ops: seq<Op>, end: State, loaded: Cache)
    requires Agree(s.cache, s.kv) && Exec(s, ops) == Some(end) && Agree(loaded, end.kv)
    ensures loaded == end.cache
  {
    RunsAgree(s, ops);
    AgreementIsUnique(loaded, end.cache, end.kv);
  }

  ghost predicate OnlyAdds(ops: seq<Op>) {
    forall i | 0 <= i < |ops| :: ops[i].Add?
  }

  /** The nodes the successful additions picked. */
  function PicksOf(ops: seq<Op>): seq<string> {
    if |ops| == 0 then []
    else
      var last := ops[|ops| - 1];
      PicksOf(ops[..|ops| - 1]) + if last.Add? && last.stored then [last.pick] else []
  }

  lemma {:induction false} AdditionsPlaceGreedily(s: State, ops: seq<Op>)
    requires OnlyAdds(ops) && Exec(s, ops).Some?
    ensures Greedy(s.loads, PicksOf(ops)) && Exec(s, ops).value.loads == Placed(s.loads, PicksOf(ops))
  {
    if |ops| == 0 {
    } else {
      var front, last := ops[..|ops| - 1], ops[|ops| - 1];
      AdditionsPlaceGreedily(s, front);
      if last.stored {
        GreedySnoc(s.loads, PicksOf(front), last.pick);
      } else {
        assert PicksOf(ops) == PicksOf(front);
      }
    }
  }

  /** A run of additions, of which k succeed, ends with the best possible largest payload for k units on
      these nodes, max(M, ceil((S + k) / n)), where M is the largest payload it starts from. */
  lemma {:induction false} AdditionsAreOptimal(s: State, ops: seq<Op>, end: State) returns (initial: int)
    requires OnlyAdds(ops) && Exec(s, ops) == Some(end) && |s.loads| > 0
    ensures IsMax(s.loads, initial) && Optimal(s.loads, end.loads, |PicksOf(ops)|, initial)
  {
    AdditionsPlaceGreedily(s, ops);
    initial := MaxExists(s.loads);
    GreedyIsOptimal(s.loads, PicksOf(ops), initial);
  }

  /** Assignments that came from addResources: empty, or naming a node. */
  ghost predicate WellAssigned(cache: Cache) {
    forall name | name in cache :: ChargedTo(cache[name]) == LookedUp(cache[name])
  }

  /** Successful additions of this run under a name that was on the node at that time. */
  ghost function Readds(s: State, ops: seq<Op>, node: string): nat {
    if |ops| == 0 then 0
    else
      var front, op := ops[..|ops| - 1], ops[|ops| - 1];
      Readds(s, front, node)
      + if Exec(s, front).Some? && op.Add? && op.stored && op.name in On(Exec(s, front).value.cache, node) then 1 else 0
  }

  lemma {:induction false} StepDrift(s: State, op: Op)
    requires Legal(s, op) && WellAssigned(s.cache) && (forall node | node in s.loads :: '|' !in node)
    ensures Next(s, op).loads.Keys == s.loads.Keys && WellAssigned(Next(s, op).cache)
    ensures forall node | node in s.loads ::
              Drift(Next(s, op).cache, Next(s, op).loads, node) ==
              Drift(s.cache, s.loads, node) + if op.Add? && op.stored && op.name in On(s.cache, node) then 1 else 0
  {
    match op
    case Add(name, _, _, pick, address, stored) =>
      AdditionDrift(s.cache, s.loads, RecordOf(op), pick, address);
      NodeIDRoundTrip(pick, address);
    case Delete(name, _) =>
      DeleteDrift(s.cache, s.loads, name);
  }

  /** Within one set of live nodes, any run of additions and deletions raises a node's payload over the
      resources assigned to it by exactly the successful additions under a name the node held. */
  lemma {:induction false} RunsDrift(s: State, ops: seq<Op>)
    requires WellAssigned(s.cache) && (forall node | node in s.loads :: '|' !in node) && Exec(s, ops).Some?
    ensures var end := Exec(s, ops).value;
            && end.loads.Keys == s.loads.Keys && WellAssigned(end.cache)
            && forall node | node in s.loads ::
                 Drift(end.cache, end.loads, node) == Drift(s.cache, s.loads, node) + Readds(s, ops, node)
  {
    if |ops| == 0 {
    } else {
      RunsDrift(s, ops[..|ops| - 1]);
      StepDrift(Exec(s, ops[..|ops| - 1]).value, ops[|ops| - 1]);
    }
  }

  /** So a run keeps every payload in step exactly when none of its successful additions takes a name that
      a live node holds. ReassignmentIsRun brings successful reassignments under this. */
  lemma {:induction false} RunsKeepDriftIff(s: State, ops: seq<Op>, end: State)
    requires WellAssigned(s.cache) && (forall node | node in s.loads :: '|' !in node) && Exec(s, ops) == Some(end)
    ensures SameDrift(s.cache, s.loads, end.cache, end.loads) <==>
            forall node | node in s.loads :: Readds(s, ops, node) == 0
  {
    RunsDrift(s, ops);
  }

  /** No addition of this run names a resource that is on a live node at that time. */
  ghost predicate FreshNames(s: State, ops: seq<Op>) {
    |ops| > 0 ==>
      var front, op := ops[..|ops| - 1], ops[|ops| - 1];
      && FreshNames(s, front)
      && (Exec(s, front).Some? && op.Add? ==>
            !HeldLive(Exec(s, front).value.cache, Exec(s, front).value.loads.Keys, op.name))
  }

  lemma {:induction false} FreshSnoc(s: State, ops: seq<Op>, op: Op)
    requires FreshNames(s, ops)
    requires Exec(s, ops).Some? && op.Add? ==>
               !HeldLive(Exec(s, ops).value.cache, Exec(s, ops).value.loads.Keys, op.name)
    ensures FreshNames(s, ops + [op])
  {
    assert (ops + [op])[..|ops|] == ops;
  }

  lemma {:induction false} FreshNamesReaddNone(s: State, ops: seq<Op>, node: string)
    requires WellAssigned(s.cache) && (forall n | n in s.loads :: '|' !in n)
    requires FreshNames(s, ops) && Exec(s, ops).Some? && node in s.loads
    ensures Readds(s, ops, node) == 0
  {
    if |ops| == 0 {
    } else {
      FreshNamesReaddNone(s, ops[..|ops| - 1], node);
      RunsDrift(s, ops[..|ops| - 1]);
    }
  }

  /** In particular a run under names not on a live node keeps them. */
  lemma {:induction false} RunsKeepDrift(s: State, ops: seq<Op>)
    requires WellAssigned(s.cache) && (forall node | node in s.loads :: '|' !in node)
    requires FreshNames(s, ops) && Exec(s, ops).Some?
    ensures var end := Exec(s, ops).value;
            SameDrift(s.cache, s.loads, end.cache, end.loads) && WellAssigned(end.cache)
  {
    RunsDrift(s, ops);
    forall node | node in s.loads
      ensures Readds(s, ops, node) == 0
    {
      FreshNamesReaddNone(s, ops, node);
    }
  }

  // ---------------------------------------------------------------- reassignment

  /** Names whose resource is on no live node. */
  ghost function Stranded(cache: Cache, live: set<string>): set<string> {
    set name | name in cache && !HeldLive(cache, live, name)
  }

  /** All of the names on no live node, each once. */
  ghost predicate Enumerates(ids: seq<string>, cache: Cache, live: set<string>) {
    && (forall i, j | 0 <= i < j < |ids| :: ids[i] != ids[j])
    && (forall n :: n in ids <==> n in Stranded(cache, live))
  }

  function Updated(cache: Cache, recs: seq<Record>): Cache {
    if |recs| == 0 then cache
    else Updated(cache, recs[..|recs| - 1])[recs[|recs| - 1].name := recs[|recs| - 1]]
  }

  /** The store after trying to put each record, where `stored` says which puts succeeded. */
  function PutAll(kv: Store, recs: seq<Record>, stored: seq<bool>): Store
    requires |stored| == |recs|
  {
    if |recs| == 0 then kv
    else
      var before := PutAll(kv, recs[..|recs| - 1], stored[..|recs| - 1]);
      var rec := recs[|recs| - 1];
      if stored[|recs| - 1] then before[GetResourcePath(rec.name) := Encoded(rec)] else before
  }

  lemma {:induction false} AppendOne(
    cache: Cache, kv: Store, recs: seq<Record>, stored: seq<bool>, rec: Record, ok: bool)
    requires |stored| == |recs|
    ensures Updated(cache, recs + [rec]) == Updated(cache, recs)[rec.name := rec]
    ensures var before := PutAll(kv, recs, stored);
            PutAll(kv, recs + [rec], stored + [ok]) ==
            if ok then before[GetResourcePath(rec.name) := Encoded(rec)] else before
  {
    assert (recs + [rec])[..|recs|] == recs && (stored + [ok])[..|recs|] == stored;
  }

  ghost predicate DistinctNames(recs: seq<Record>) {
    forall i, j | 0 <= i < j < |recs| :: recs[i].name != recs[j].name
  }

  lemma {:induction false} UntouchedName(cache: Cache, recs: seq<Record>, name: string)
    requires forall i | 0 <= i < |recs| :: recs[i].name != name
    ensures name in Updated(cache, recs) <==> name in cache
    ensures name in cache ==> Updated(cache, recs)[name] == cache[name]
  {
    if |recs| == 0 {
    } else {
      UntouchedName(cache, recs[..|recs| - 1], name);
    }
  }

  lemma {:induction false} UpdatedName(cache: Cache, recs: seq<Record>, i: nat)
    requires DistinctNames(recs) && i < |recs|
    ensures recs[i].name in Updated(cache, recs) && Updated(cache, recs)[recs[i].name] == recs[i]
  {
    var n := |recs| - 1;
    if i < n {
      UpdatedName(cache, recs[..n], i);
    }
  }

  lemma {:induction false} UpdatedAt(cache: Cache, recs: seq<Record>, name: string)
    ensures (forall i | 0 <= i < |recs| :: recs[i].name != name) ==>
              (name in Updated(cache, recs) <==> name in cache)
              && (name in cache ==> Updated(cache, recs)[name] == cache[name])
    ensures forall i | 0 <= i < |recs| && recs[i].name == name && DistinctNames(recs) ::
              name in Updated(cache, recs) && Updated(cache, recs)[name] == recs[i]
  {
    if forall i | 0 <= i < |recs| :: recs[i].name != name {
      UntouchedName(cache, recs, name);
    }
    forall i | 0 <= i < |recs| && recs[i].name == name && DistinctNames(recs)
      ensures name in Updated(cache, recs) && Updated(cache, recs)[name] == recs[i]
    {
      UpdatedName(cache, recs, i);
    }
  }

  lemma {:induction false} UnstoredAt(kv: Store, recs: seq<Record>, stored: seq<bool>, i: nat)
    requires |stored| == |recs| && DistinctNames(recs) && i < |recs| && !stored[i]
    ensures var path := GetResourcePath(recs[i].name);
            && (path in PutAll(kv, recs, stored) <==> path in kv)
            && (path in kv ==> PutAll(kv, recs, stored)[path] == kv[path])
  {
    var path := GetResourcePath(recs[i].name);
    var n := |recs| - 1;
    PathsDiffer(recs[n].name, recs[i].name);
    if i < n {
      UnstoredAt(kv, recs[..n], stored[..n], i);
    } else {
      UntouchedPath(kv, recs[..n], stored[..n], recs[n].name);
    }
  }

  lemma {:induction false} UntouchedPath(kv: Store, recs: seq<Record>, stored: seq<bool>, name: string)
    requires |stored| == |recs| && forall i | 0 <= i < |recs| :: recs[i].name != name
    ensures var path := GetResourcePath(name);
            && (path in PutAll(kv, recs, stored) <==> path in kv)
            && (path in kv ==> PutAll(kv, recs, stored)[path] == kv[path])
  {
    if |recs| == 0 {
    } else {
      var n := |recs| - 1;
      PathsDiffer(recs[n].name, name);
      UntouchedPath(kv, recs[..n], stored[..n], name);
    }
  }

  lemma {:induction false} AllStoredAgrees(cache: Cache, kv: Store, recs: seq<Record>, stored: seq<bool>)
    requires Agree(cache, kv) && |stored| == |recs| && AllTrue(stored)
    ensures Agree(Updated(cache, recs), PutAll(kv, recs, stored))
  {
    if |recs| == 0 {
    } else {
      var n := |recs| - 1;
      AllStoredAgrees(cache, kv, recs[..n], stored[..n]);
      PutAgrees(Updated(cache, recs[..n]), PutAll(kv, recs[..n], stored[..n]), recs[n]);
    }
  }

  /** What addResources wrote into a resource at call `at`, over live nodes with these addresses, when it
      picked this node. Without a node the id is all that changes. */
  ghost predicate Rewritten(env: Env, nodes: map<string, string>, rec: Record, was: Record, at: nat, pick: string) {
    && rec.name == was.name && rec.id == env.idAt(at)
    && if nodes == map[] then
         rec.assignedNode == was.assignedNode && rec.creationTime == was.creationTime
       else
         rec.creationTime == env.clockAt(at) && OnNode(nodes, rec, pick)
  }

  ghost predicate OnNode(nodes: map<string, string>, rec: Record, node: string) {
    node in nodes && rec.assignedNode == Assigned(node, nodes[node])
  }

  ghost predicate AllTrue(stored: seq<bool>) {
    forall k | 0 <= k < |stored| :: stored[k]
  }

  /** The payloads after these picks: a pick whose put was refused is not charged. */
  function Charged(loads: Loads, picks: seq<string>, stored: seq<bool>): Loads
    requires |picks| == |stored|
    ensures Charged(loads, picks, stored).Keys == loads.Keys
  {
    if |picks| == 0 then loads
    else
      var n := |picks| - 1;
      var before := Charged(loads, picks[..n], stored[..n]);
      if stored[n] && picks[n] in before then Bump(before, picks[n]) else before
  }

  /** Every pick, charged or not, was a least-loaded node when it was made. */
  ghost predicate Chosen(loads: Loads, picks: seq<string>, stored: seq<bool>)
    requires |picks| == |stored|
  {
    |picks| > 0 ==>
      var n := |picks| - 1;
      Chosen(loads, picks[..n], stored[..n]) && Least(Charged(loads, picks[..n], stored[..n]), picks[n])
  }

  /** Reassignment of the first |recs| of the named resources, starting at call `at`: `recs` are the
      resources as rewritten, `picks` the nodes they went to, and `stored` says which puts succeeded. */
  ghost predicate Reassigned(env: Env, nodes: map<string, string>, s: State, t: State, at: nat,
                             ids: seq<string>, recs: seq<Record>, stored: seq<bool>, picks: seq<string>)
  {
    && |recs| == |stored| == |picks| <= |ids|
    && (forall k | 0 <= k < |recs| ::
          && ids[k] in s.cache && recs[k].name == ids[k]
          && Rewritten(env, nodes, recs[k], s.cache[ids[k]], at + k, picks[k])
          && (stored[k] <==> nodes != map[] && env.putOk(at + k)))
    && t.cache == Updated(s.cache, recs)
    && t.kv == PutAll(s.kv, recs, stored)
    && (nodes != map[] ==> Chosen(s.loads, picks, stored))
    && t.loads == Charged(s.loads, picks, stored)
  }

  /** One resource `was` rewritten at call `at` as `rec` onto `pick`, and stored and charged if the put
      succeeded. */
  ghost predicate MovesOne(env: Env, nodes: map<string, string>, s: State, t: State, was: Record, at: nat,
                           rec: Record, ok: bool, pick: string)
  {
    && Rewritten(env, nodes, rec, was, at, pick)
    && (ok <==> nodes != map[] && env.putOk(at))
    && (nodes != map[] ==> Least(s.loads, pick))
    && t.cache == s.cache[rec.name := rec]
    && t.kv == (if ok then s.kv[GetResourcePath(rec.name) := Encoded(rec)] else s.kv)
    && t.loads == (if ok then Bump(s.loads, pick) else s.loads)
  }

  lemma {:induction false} NotYetMoved(
    env: Env, nodes: map<string, string>, s: State, t: State, at: nat,
    ids: seq<string>, recs: seq<Record>, stored: seq<bool>, picks: seq<string>)
    requires Reassigned(env, nodes, s, t, at, ids, recs, stored, picks) && |recs| < |ids|
    requires (forall i, j | 0 <= i < j < |ids| :: ids[i] != ids[j]) && ids[|recs|] in s.cache
    ensures ids[|recs|] in t.cache && t.cache[ids[|recs|]] == s.cache[ids[|recs|]]
  {
    UpdatedAt(s.cache, recs, ids[|recs|]);
  }

  lemma {:induction false} ChargeOneMore(loads: Loads, picks: seq<string>, stored: seq<bool>, pick: string, ok: bool)
    requires |picks| == |stored|
    requires var before := Charged(loads, picks, stored);
             ok ==> pick in before
    ensures var before := Charged(loads, picks, stored);
            && Charged(loads, picks + [pick], stored + [ok]) == (if ok then Bump(before, pick) else before)
            && (Chosen(loads, picks, stored) && Least(before, pick) ==> Chosen(loads, picks + [pick], stored + [ok]))
  {
    assert (picks + [pick])[..|picks|] == picks && (stored + [ok])[..|picks|] == stored;
  }

  lemma {:induction false} ReassignOneMore(
    env: Env, nodes: map<string, string>, s: State, t: State, u: State, at: nat,
    ids: seq<string>, recs: seq<Record>, stored: seq<bool>, picks: seq<string>,
    was: Record, now: nat, rec: Record, ok: bool, pick: string)
    requires Reassigned(env, nodes, s, t, at, ids, recs, stored, picks) && |recs| < |ids|
    requires ids[|recs|] in s.cache && s.cache[ids[|recs|]] == was && was.name == ids[|recs|] && now == at + |recs|
    requires MovesOne(env, nodes, t, u, was, now, rec, ok, pick)
    ensures Reassigned(env, nodes, s, u, at, ids, recs + [rec], stored + [ok], picks + [pick])
  {
    AppendOne(s.cache, s.kv, recs, stored, rec, ok);
    ChargeOneMore(s.loads, picks, stored, pick, ok);
  }

  /** reAssign changes the objects in the map before each put. So the map and the store still agree
      afterwards exactly when every put succeeded, given that ids are never reused. */
  lemma {:induction false} ReassignmentAgreesIffStored(cache: Cache, kv: Store, recs: seq<Record>, stored: seq<bool>)
    requires Agree(cache, kv) && |stored| == |recs| && DistinctNames(recs)
    requires forall i | 0 <= i < |recs| :: recs[i].name in cache && recs[i].id != cache[recs[i].name].id
    ensures Agree(Updated(cache, recs), PutAll(kv, recs, stored)) <==> AllTrue(stored)
  {
    if i: nat :| i < |recs| && !stored[i] {
      var name := recs[i].name;
      UpdatedAt(cache, recs, name);
      UnstoredAt(kv, recs, stored, i);
      assert kv[GetResourcePath(name)] == Encoded(cache[name]);
      assert Updated(cache, recs)[name] == recs[i];
    } else {
      AllStoredAgrees(cache, kv, recs, stored);
    }
  }

  /** Ids generated from call `at` on differ from those in use. */
  ghost predicate FreshIds(env: Env, at: nat, cache: Cache) {
    forall call: nat, n | at <= call && n in cache :: env.idAt(call) != cache[n].id
  }

  /** The store takes every put of the calls from `at` up to `end`. */
  ghost predicate PutsSucceed(env: Env, at: nat, end: nat) {
    forall call: nat | at <= call < end :: env.putOk(call)
  }

  /** A whole reassignment keeps map and store in agreement exactly when there was nothing to move, or
      some node is live and the store takes every put. */
  lemma {:induction false} ReassignmentAgreesIffPutsSucceed(
    env: Env, nodes: map<string, string>, s: State, t: State, at: nat,
    ids: seq<string>, recs: seq<Record>, stored: seq<bool>, picks: seq<string>)
    requires Agree(s.cache, s.kv) && FreshIds(env, at, s.cache) && Enumerates(ids, s.cache, nodes.Keys)
    requires Reassigned(env, nodes, s, t, at, ids, recs, stored, picks) && |recs| == |ids|
    ensures Agree(t.cache, t.kv) <==>
            Stranded(s.cache, nodes.Keys) == {} || (nodes != map[] && PutsSucceed(env, at, at + |ids|))
  {
    ReassignmentAgreesIffStored(s.cache, s.kv, recs, stored);
    AllStoredIffPutsSucceed(env, nodes, at, stored);
    if |ids| > 0 {
      assert ids[0] in ids;
    } else {
      assert Stranded(s.cache, nodes.Keys) == {};
    }
  }

  lemma {:induction false} AllStoredIffPutsSucceed(env: Env, nodes: map<string, string>, at: nat, stored: seq<bool>)
    requires forall k | 0 <= k < |stored| :: stored[k] <==> nodes != map[] && env.putOk(at + k)
    ensures AllTrue(stored) <==> |stored| == 0 || (nodes != map[] && PutsSucceed(env, at, at + |stored|))
  {
    if AllTrue(stored) && |stored| > 0 {
      assert stored[0];
      forall call: nat | at <= call < at + |stored|
        ensures env.putOk(call)
      {
        assert stored[call - at];
      }
    }
  }

  /** With a live node, reassignment leaves each resource on a live node, keeps the names and leaves
      resources already on live nodes untouched, whatever the store answers. The store holds a moved
      resource as the map does where the put succeeded, and what it held before everywhere else. */
  lemma {:induction false} ReassignmentCompletes(
    env: Env, nodes: map<string, string>, s: State, t: State, at: nat,
    ids: seq<string>, recs: seq<Record>, stored: seq<bool>, picks: seq<string>)
    requires Reassigned(env, nodes, s, t, at, ids, recs, stored, picks) && |recs| == |ids|
    requires Enumerates(ids, s.cache, nodes.Keys) && nodes != map[]
    requires forall node | node in nodes :: '|' !in node
    ensures t.cache.Keys == s.cache.Keys
    ensures Stranded(t.cache, nodes.Keys) == {}
    ensures forall k | 0 <= k < |ids| ::
              ids[k] in t.cache && picks[k] in nodes
              && t.cache[ids[k]] ==
                 Record(env.idAt(at + k), ids[k], Assigned(picks[k], nodes[picks[k]]), env.clockAt(at + k))
    ensures forall n | n in s.cache && n !in Stranded(s.cache, nodes.Keys) ::
              t.cache[n] == s.cache[n] && SameEntry(s.kv, t.kv, GetResourcePath(n))
    ensures forall k | 0 <= k < |ids| ::
              if stored[k] then
                GetResourcePath(ids[k]) in t.kv && t.kv[GetResourcePath(ids[k])] == Encoded(t.cache[ids[k]])
              else SameEntry(s.kv, t.kv, GetResourcePath(ids[k]))
  {
    forall n
      ensures n in t.cache <==> n in s.cache
      ensures n in s.cache ==> n !in Stranded(t.cache, nodes.Keys)
      ensures n in s.cache && n !in ids ==> t.cache[n] == s.cache[n] && SameEntry(s.kv, t.kv, GetResourcePath(n))
    {
      UpdatedAt(s.cache, recs, n);
      if n in ids {
        var k :| 0 <= k < |ids| && ids[k] == n;
        MovedOnto(env, nodes, s, t, at, ids, recs, stored, picks, k);
      } else {
        assert forall k | 0 <= k < |recs| :: recs[k].name == ids[k];
        UntouchedPath(s.kv, recs, stored, n);
      }
    }
    forall k | 0 <= k < |ids|
      ensures ids[k] in t.cache && picks[k] in nodes && t.cache[ids[k]] == recs[k]
      ensures if stored[k] then
                GetResourcePath(ids[k]) in t.kv && t.kv[GetResourcePath(ids[k])] == Encoded(t.cache[ids[k]])
              else SameEntry(s.kv, t.kv, GetResourcePath(ids[k]))
    {
      MovedOnto(env, nodes, s, t, at, ids, recs, stored, picks, k);
      if stored[k] {
        StoredAt(s.kv, recs, stored, k);
      } else {
        UnstoredAt(s.kv, recs, stored, k);
      }
    }
  }

  ghost predicate SameEntry(kv: Store, kv': Store, key: string) {
    (key in kv' <==> key in kv) && (key in kv ==> kv'[key] == kv[key])
  }

  lemma {:induction false} MovedOnto(
    env: Env, nodes: map<string, string>, s: State, t: State, at: nat,
    ids: seq<string>, recs: seq<Record>, stored: seq<bool>, picks: seq<string>, k: nat)
    requires Reassigned(env, nodes, s, t, at, ids, recs, stored, picks) && k < |recs| == |ids|
    requires Enumerates(ids, s.cache, nodes.Keys) && nodes != map[]
    requires forall node | node in nodes :: '|' !in node
    ensures ids[k] in t.cache && t.cache[ids[k]] == recs[k] && LookedUp(recs[k]) == Some(picks[k]) && picks[k] in nodes
    ensures ids[k] in s.cache && DistinctNames(recs)
  {
    UpdatedAt(s.cache, recs, ids[k]);
    NodeIDRoundTrip(picks[k], nodes[picks[k]]);
    assert recs[k].name == ids[k];
  }

  lemma {:induction false} StoredAt(kv: Store, recs: seq<Record>, stored: seq<bool>, i: nat)
    requires |stored| == |recs| && DistinctNames(recs) && i < |recs| && stored[i]
    ensures var path := GetResourcePath(recs[i].name);
            path in PutAll(kv, recs, stored) && PutAll(kv, recs, stored)[path] == Encoded(recs[i])
  {
    var n := |recs| - 1;
    if i < n {
      PathsDiffer(recs[n].name, recs[i].name);
      StoredAt(kv, recs[..n], stored[..n], i);
    }
  }

  // ---------------------------------------------------------------- payloads after a reassignment

  /** Moved resources on the node whose put was refused. */
  function Unpaid(recs: seq<Record>, stored: seq<bool>, node: string): nat
    requires |stored| == |recs|
  {
    if |recs| == 0 then 0
    else
      var n := |recs| - 1;
      Unpaid(recs[..n], stored[..n], node) + if !stored[n] && LookedUp(recs[n]) == Some(node) then 1 else 0
  }

  /** Moved resources on the node. */
  function Landed(recs: seq<Record>, node: string): nat {
    if |recs| == 0 then 0
    else Landed(recs[..|recs| - 1], node) + if LookedUp(recs[|recs| - 1]) == Some(node) then 1 else 0
  }

  /** Picks of the node that were charged. */
  function Paid(picks: seq<string>, stored: seq<bool>, node: string): nat
    requires |stored| == |picks|
  {
    if |picks| == 0 then 0
    else
      var n := |picks| - 1;
      Paid(picks[..n], stored[..n], node) + if stored[n] && picks[n] == node then 1 else 0
  }

  lemma {:induction false} LandedIsPaidOrUnpaid(recs: seq<Record>, stored: seq<bool>, picks: seq<string>, node: string)
    requires |recs| == |stored| == |picks| && forall k | 0 <= k < |recs| :: LookedUp(recs[k]) == Some(picks[k])
    ensures Landed(recs, node) == Paid(picks, stored, node) + Unpaid(recs, stored, node)
  {
    if |recs| == 0 {
    } else {
      var n := |recs| - 1;
      LandedIsPaidOrUnpaid(recs[..n], stored[..n], picks[..n], node);
    }
  }

  lemma {:induction false} ChargedAt(loads: Loads, picks: seq<string>, stored: seq<bool>, node: string)
    requires |picks| == |stored| && node in loads
    ensures Charged(loads, picks, stored)[node] == loads[node] + Paid(picks, stored, node)
  {
    if |picks| == 0 {
    } else {
      ChargedAt(loads, picks[..|picks| - 1], stored[..|picks| - 1], node);
    }
  }

  /** A named resource is still stranded when its turn comes. */
  lemma {:induction false} StillStranded(cache: Cache, live: set<string>, ids: seq<string>, recs: seq<Record>)
    requires Enumerates(ids, cache, live) && |recs| < |ids| && forall k | 0 <= k < |recs| :: recs[k].name == ids[k]
    ensures !HeldLive(Updated(cache, recs), live, ids[|recs|])
  {
    UpdatedAt(cache, recs, ids[|recs|]);
    assert ids[|recs|] in ids;
    assert ids[|recs|] in Stranded(cache, live);
  }

  /** Each of these resources is stranded when its turn comes. */
  ghost predicate EachStranded(cache: Cache, live: set<string>, recs: seq<Record>) {
    |recs| > 0 ==>
      var n := |recs| - 1;
      EachStranded(cache, live, recs[..n]) && !HeldLive(Updated(cache, recs[..n]), live, recs[n].name)
  }

  lemma {:induction false} AllStranded(cache: Cache, live: set<string>, ids: seq<string>, recs: seq<Record>)
    requires Enumerates(ids, cache, live) && |recs| <= |ids| && forall k | 0 <= k < |recs| :: recs[k].name == ids[k]
    ensures EachStranded(cache, live, recs)
  {
    if |recs| == 0 {
    } else {
      AllStranded(cache, live, ids, recs[..|recs| - 1]);
      StillStranded(cache, live, ids, recs[..|recs| - 1]);
    }
  }

  lemma {:induction false} OnAfterMoves(cache: Cache, live: set<string>, recs: seq<Record>, node: string)
    requires EachStranded(cache, live, recs) && node in live
    ensures |On(Updated(cache, recs), node)| == |On(cache, node)| + Landed(recs, node)
  {
    if |recs| == 0 {
    } else {
      var n := |recs| - 1;
      OnAfterMoves(cache, live, recs[..n], node);
      OnUpdate(Updated(cache, recs[..n]), recs[n], node);
    }
  }

  lemma {:induction false} MovesDrift(
    nodes: map<string, string>, cache: Cache, loads: Loads, recs: seq<Record>, stored: seq<bool>, picks: seq<string>,
    node: string)
    requires |recs| == |stored| == |picks| && loads.Keys == nodes.Keys && node in nodes
    requires forall k | 0 <= k < |recs| :: LookedUp(recs[k]) == Some(picks[k])
    requires EachStranded(cache, nodes.Keys, recs)
    ensures Drift(Updated(cache, recs), Charged(loads, picks, stored), node)
         == Drift(cache, loads, node) - Unpaid(recs, stored, node)
  {
    OnAfterMoves(cache, nodes.Keys, recs, node);
    ChargedAt(loads, picks, stored, node);
    LandedIsPaidOrUnpaid(recs, stored, picks, node);
  }

  /** A reassignment lowers each live node's payload against the resources on it by exactly the moved
      resources whose put was refused. */
  lemma {:induction false} ReassignmentDrift(
    env: Env, nodes: map<string, string>, s: State, t: State, at: nat,
    ids: seq<string>, recs: seq<Record>, stored: seq<bool>, picks: seq<string>)
    requires Reassigned(env, nodes, s, t, at, ids, recs, stored, picks) && s.loads.Keys == nodes.Keys
    requires Enumerates(ids, s.cache, nodes.Keys) && forall node | node in nodes :: '|' !in node
    ensures t.loads.Keys == s.loads.Keys
    ensures forall node | node in s.loads ::
              Drift(t.cache, t.loads, node) == Drift(s.cache, s.loads, node) - Unpaid(recs, stored, node)
  {
    if nodes == map[] {
      NothingCharged(s.loads, picks, stored);
    } else {
      AllStranded(s.cache, nodes.Keys, ids, recs);
      forall k | 0 <= k < |recs|
        ensures LookedUp(recs[k]) == Some(picks[k])
      {
        NodeIDRoundTrip(picks[k], nodes[picks[k]]);
        assert recs[k].assignedNode != "";
      }
      forall node | node in s.loads
        ensures Drift(t.cache, t.loads, node) == Drift(s.cache, s.loads, node) - Unpaid(recs, stored, node)
      {
        MovesDrift(nodes, s.cache, s.loads, recs, stored, picks, node);
      }
    }
  }

  lemma {:induction false} NothingCharged(loads: Loads, picks: seq<string>, stored: seq<bool>)
    requires |picks| == |stored| && loads.Keys == {}
    ensures Charged(loads, picks, stored) == loads
  {
    if |picks| == 0 {
    } else {
      NothingCharged(loads, picks[..|picks| - 1], stored[..|picks| - 1]);
    }
  }

  lemma {:induction false} AllPaid(recs: seq<Record>, stored: seq<bool>, node: string)
    requires |stored| == |recs| && AllTrue(stored)
    ensures Unpaid(recs, stored, node) == 0
  {
    if |recs| == 0 {
    } else {
      AllPaid(recs[..|recs| - 1], stored[..|recs| - 1], node);
    }
  }

  lemma {:induction false} RefusedIsUnpaid(recs: seq<Record>, stored: seq<bool>, k: nat, node: string)
    requires |stored| == |recs| && k < |recs| && !stored[k] && LookedUp(recs[k]) == Some(node)
    ensures Unpaid(recs, stored, node) > 0
  {
    var n := |recs| - 1;
    if k < n {
      RefusedIsUnpaid(recs[..n], stored[..n], k, node);
    }
  }

  /** So it keeps every payload in step exactly when no node is live or every put succeeded. */
  lemma {:induction false} ReassignmentKeepsDriftIff(
    env: Env, nodes: map<string, string>, s: State, t: State, at: nat,
    ids: seq<string>, recs: seq<Record>, stored: seq<bool>, picks: seq<string>)
    requires Reassigned(env, nodes, s, t, at, ids, recs, stored, picks) && s.loads.Keys == nodes.Keys
    requires Enumerates(ids, s.cache, nodes.Keys) && forall node | node in nodes :: '|' !in node
    ensures SameDrift(s.cache, s.loads, t.cache, t.loads) <==> nodes == map[] || AllTrue(stored)
  {
    ReassignmentDrift(env, nodes, s, t, at, ids, recs, stored, picks);
    if nodes == map[] {
      assert s.loads.Keys == {};
    } else if AllTrue(stored) {
      forall node | node in s.loads
        ensures Unpaid(recs, stored, node) == 0
      {
        AllPaid(recs, stored, node);
      }
    } else {
      var k :| 0 <= k < |stored| && !stored[k];
      NodeIDRoundTrip(picks[k], nodes[picks[k]]);
      RefusedIsUnpaid(recs, stored, k, picks[k]);
    }
  }

  /** The picks that were charged. */
  function Kept(picks: seq<string>, stored: seq<bool>): seq<string>
    requires |picks| == |stored|
  {
    if |picks| == 0 then []
    else
      var n := |picks| - 1;
      Kept(picks[..n], stored[..n]) + if stored[n] then [picks[n]] else []
  }

  /** The charged picks of a reassignment are a least-loaded placement, so Placement's optimality results
      hold of it, refused puts or not. */
  lemma {:induction false} ReassignmentPlacesGreedily(loads: Loads, picks: seq<string>, stored: seq<bool>)
    requires |picks| == |stored| && Chosen(loads, picks, stored)
    ensures Greedy(loads, Kept(picks, stored)) && Charged(loads, picks, stored) == Placed(loads, Kept(picks, stored))
  {
    if |picks| == 0 {
    } else {
      var n := |picks| - 1;
      var front := Kept(picks[..n], stored[..n]);
      ReassignmentPlacesGreedily(loads, picks[..n], stored[..n]);
      if stored[n] {
        GreedySnoc(loads, front, picks[n]);
      } else {
        assert front + [] == front;
      }
    }
  }

  lemma {:induction false} RunTakesOne(
    nodes: map<string, string>, s: State, recs: seq<Record>, stored: seq<bool>, picks: seq<string>,
    front: seq<Op>, last: Op)
    requires |recs| == |stored| == |picks| > 0 && s.loads.Keys == nodes.Keys && Chosen(s.loads, picks, stored)
    requires var n := |recs| - 1;
             && OnNode(nodes, recs[n], picks[n]) && stored[n]
             && last == Add(recs[n].name, recs[n].id, recs[n].creationTime, picks[n], nodes[picks[n]], true)
             && !HeldLive(Updated(s.cache, recs[..n]), nodes.Keys, recs[n].name)
             && FreshNames(s, front)
             && Exec(s, front) == Some(State(Updated(s.cache, recs[..n]), PutAll(s.kv, recs[..n], stored[..n]),
                                             Charged(s.loads, picks[..n], stored[..n])))
    ensures Exec(s, front + [last]) ==
            Some(State(Updated(s.cache, recs), PutAll(s.kv, recs, stored), Charged(s.loads, picks, stored)))
    ensures FreshNames(s, front + [last])
  {
    assert RecordOf(last) == recs[|recs| - 1];
    ExecSnoc(s, front, last);
    FreshSnoc(s, front, last);
  }

  /** Reassignment with successful puts is a run of ledger additions, each under a name on no live node.
      So what holds of every run holds of runs that mix additions, deletions and reassignments. */
  lemma {:induction false} ReassignmentIsRun(
    nodes: map<string, string>, s: State, ids: seq<string>, recs: seq<Record>, stored: seq<bool>, picks: seq<string>)
    returns (ops: seq<Op>)
    requires |recs| == |stored| == |picks| <= |ids| && s.loads.Keys == nodes.Keys && AllTrue(stored)
    requires Chosen(s.loads, picks, stored)
    requires forall k | 0 <= k < |recs| :: recs[k].name == ids[k] && OnNode(nodes, recs[k], picks[k])
    requires Enumerates(ids, s.cache, nodes.Keys)
    ensures Exec(s, ops) ==
            Some(State(Updated(s.cache, recs), PutAll(s.kv, recs, stored), Charged(s.loads, picks, stored)))
    ensures FreshNames(s, ops)
  {
    if |recs| == 0 {
      ops := [];
    } else {
      var n := |recs| - 1;
      var front := ReassignmentIsRun(nodes, s, ids, recs[..n], stored[..n], picks[..n]);
      var last := Add(recs[n].name, recs[n].id, recs[n].creationTime, picks[n], nodes[picks[n]], true);
      StillStranded(s.cache, nodes.Keys, ids, recs[..n]);
      RunTakesOne(nodes, s, recs, stored, picks, front, last);
      ops := front + [last];
    }
  }
}
