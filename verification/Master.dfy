/** The master's resource allocator over shared mutable objects (master/master.go). */
module Master {
  import opened Spider
  import opened Identifiers
  import opened Placement
  import L = Ledger

  class Etcd {
    var kv: L.Store

    constructor (kv: L.Store)
      ensures this.kv == kv
    {
      this.kv := kv;
    }
  }

  class NodeSpec {
    const id: string
    const address: string
    var payload: int

    constructor (id: string, address: string)
      ensures this.id == id && this.address == address && payload == 0
    {
      this.id, this.address, payload := id, address, 0;
    }
  }

  class ResourceSpec {
    const name: string
    var id: string
    var assignedNode: string
    var creationTime: int

    constructor (rec: L.Record)
      ensures name == rec.name && Rec() == rec
    {
      name, id, assignedNode, creationTime := rec.name, rec.id, rec.assignedNode, rec.creationTime;
    }

    /** What the JSON encoding of the object carries. */
    function Rec(): L.Record
      reads this
    {
      L.Record(id, name, assignedNode, creationTime)
    }
  }

  /** The last entry for this id has this address. */
  ghost predicate LastListed(listed: seq<(string, string)>, id: string, address: string) {
    exists i :: 0 <= i < |listed| && listed[i] == (id, address) && forall j | i < j < |listed| :: listed[j].0 != id
  }

  lemma {:induction false} LastOneMore(listed: seq<(string, string)>, i: nat)
    requires i < |listed|
    ensures LastListed(listed[..i + 1], listed[i].0, listed[i].1)
    ensures forall id, address | LastListed(listed[..i], id, address) && id != listed[i].0 ::
              LastListed(listed[..i + 1], id, address)
  {
    var more := listed[..i + 1];
    assert more[i] == (listed[i].0, listed[i].1);
    forall id, address | LastListed(listed[..i], id, address) && id != listed[i].0
      ensures LastListed(more, id, address)
    {
      var k :| 0 <= k < i && listed[..i][k] == (id, address) && forall j | k < j < i :: listed[..i][j].0 != id;
      assert more[k] == (id, address);
      assert forall j | k < j < i :: more[j] == listed[..i][j];
    }
  }

  function Names(rs: seq<ResourceSpec>): seq<string> {
    seq(|rs|, i requires 0 <= i < |rs| => rs[i].name)
  }

  datatype Deletion = NoSuchTask | StoreError | NoNodeID | Deleted

  ghost predicate ByPayload(nodes: seq<NodeSpec>)
    reads nodes
  {
    forall i, j :: 0 <= i < j < |nodes| ==> nodes[i].payload <= nodes[j].payload
  }

  lemma {:induction false} InsertionAdds<T>(s: seq<T>, p: nat, x: T)
    requires p <= |s|
    ensures multiset(s[..p] + [x] + s[p..]) == multiset(s) + multiset{x}
  {
    assert s == s[..p] + s[p..];
  }

  /** One insertion of the sort. */
  method Insert(sorted: seq<NodeSpec>, node: NodeSpec) returns (longer: seq<NodeSpec>)
    requires ByPayload(sorted)
    ensures ByPayload(longer) && multiset(longer) == multiset(sorted) + multiset{node}
  {
    var p := 0;
    while p < |sorted| && sorted[p].payload <= node.payload
      invariant 0 <= p <= |sorted|
      invariant forall i :: 0 <= i < p ==> sorted[i].payload <= node.payload
    {
      p := p + 1;
    }
    longer := sorted[..p] + [node] + sorted[p..];
    InsertionAdds(sorted, p, node);
  }

  /** sort.Slice by payload: a permutation in order; the order of equal payloads is left open. */
  method SortByPayload(nodes: seq<NodeSpec>) returns (sorted: seq<NodeSpec>)
    ensures multiset(sorted) == multiset(nodes) && ByPayload(sorted)
  {
    sorted := [];
    for k := 0 to |nodes|
      invariant multiset(sorted) == multiset(nodes[..k]) && ByPayload(sorted)
    {
      sorted := Insert(sorted, nodes[k]);
      assert nodes[..k + 1] == nodes[..k] + [nodes[k]];
    }
    assert nodes[..|nodes|] == nodes;
  }

  /** What a client asks of the active master. */
  datatype Command = Adding(name: string) | Deleting(name: string)

  /** The names a master holds and the number of its next call. */
  datatype Holding = Holding(names: set<string>, tick: nat)

  /** What a master holds after these commands, by what the store answers: every addition is one call, and
      every deletion of a held name. `live` says that the master has a node. */
  function HeldAfter(env: L.Env, live: bool, h: Holding, commands: seq<Command>): Holding {
    if |commands| == 0 then h
    else
      var before := HeldAfter(env, live, h, commands[..|commands| - 1]);
      match commands[|commands| - 1]
      case Adding(name) =>
        Holding(if live && env.putOk(before.tick) then before.names + {name} else before.names, before.tick + 1)
      case Deleting(name) =>
        if name !in before.names then before
        else Holding(if env.deleteOk(before.tick) then before.names - {name} else before.names, before.tick + 1)
  }

  /** Commands about other names do not touch a name. */
  lemma {:induction false} OthersLeaveName(env: L.Env, live: bool, h: Holding, commands: seq<Command>, name: string)
    requires forall i | 0 <= i < |commands| :: commands[i].name != name
    ensures name in HeldAfter(env, live, h, commands).names <==> name in h.names
  {
    if |commands| == 0 {
    } else {
      OthersLeaveName(env, live, h, commands[..|commands| - 1], name);
    }
  }

  /** With a node and a store that takes every call, the last command about a name decides. */
  lemma {:induction false} LastCommandDecides(env: L.Env, h: Holding, commands: seq<Command>, i: nat)
    requires forall call :: env.putOk(call) && env.deleteOk(call)
    requires i < |commands| && forall j | i < j < |commands| :: commands[j].name != commands[i].name
    ensures commands[i].name in HeldAfter(env, true, h, commands).names <==> commands[i].Adding?
  {
    var n := |commands| - 1;
    var before := HeldAfter(env, true, h, commands[..n]);
    if i == n {
      assert env.putOk(before.tick) && env.deleteOk(before.tick);
    } else {
      LastCommandDecides(env, h, commands[..n], i);
    }
  }

  /** Without a node, or with a store that refuses every put, nothing is ever added. */
  lemma {:induction false} NothingAdded(env: L.Env, live: bool, h: Holding, commands: seq<Command>)
    requires !live || forall call :: !env.putOk(call)
    ensures HeldAfter(env, live, h, commands).names <= h.names
  {
    if |commands| == 0 {
    } else {
      NothingAdded(env, live, h, commands[..|commands| - 1]);
    }
  }

  /** The operations among the answers. */
  function Somes(answers: seq<Option<L.Op>>): seq<L.Op> {
    if |answers| == 0 then []
    else
      var last := answers[|answers| - 1];
      Somes(answers[..|answers| - 1]) + if last.Some? then [last.value] else []
  }

  class Master {
    const etcd: Etcd
    const env: L.Env
    var tick: nat
    var workNodes: map<string, NodeSpec>
    var resources: map<string, ResourceSpec>

    ghost predicate Valid()
      reads this`workNodes, this`resources
    {
      && (forall k | k in workNodes :: workNodes[k].id == k)
      && (forall n | n in resources :: resources[n].name == n)
    }

    function Payloads(): Loads
      reads this`workNodes, workNodes.Values
    {
      map k | k in workNodes :: workNodes[k].payload
    }

    function Addresses(): map<string, string>
      reads this`workNodes
    {
      map k | k in workNodes :: workNodes[k].address
    }

    function Cache(): L.Cache
      reads this`resources, resources.Values
    {
      map n | n in resources :: resources[n].Rec()
    }

    /** The very object is in the map. */
    ghost predicate Holds(r: ResourceSpec)
      reads this`resources
    {
      exists n :: n in resources && resources[n] == r
    }

    ghost function State(): L.State
      reads this`workNodes, this`resources, etcd, workNodes.Values, resources.Values
    {
      L.State(Cache(), etcd.kv, Payloads())
    }

    constructor (etcd: Etcd, env: L.Env)
      ensures Valid() && this.etcd == etcd && this.env == env && workNodes == map[] && resources == map[]
    {
      this.etcd, this.env := etcd, env;
      tick, workNodes, resources := 0, map[], map[];
    }

    /** Replaces the live nodes by what the registry lists, with zero payloads. */
    method UpdateWorkNodes(listed: seq<(string, string)>)
      requires Valid()
      modifies this`workNodes
      ensures Valid() && fresh(workNodes.Values)
      ensures forall k :: k in workNodes <==> exists i :: 0 <= i < |listed| && listed[i].0 == k
      ensures forall k | k in workNodes :: workNodes[k].payload == 0 && LastListed(listed, k, workNodes[k].address)
    {
      var nodes: map<string, NodeSpec> := map[];
      for i := 0 to |listed|
        invariant forall k | k in nodes :: nodes[k].id == k && nodes[k].payload == 0 && fresh(nodes[k])
        invariant forall k :: k in nodes <==> exists j :: 0 <= j < i && listed[j].0 == k
        invariant forall k | k in nodes :: LastListed(listed[..i], k, nodes[k].address)
      {
        var node := new NodeSpec(listed[i].0, listed[i].1);
        nodes := nodes[listed[i].0 := node];
        LastOneMore(listed, i);
      }
      assert listed[..|listed|] == listed;
      workNodes := nodes;
    }

    /** A least-loaded node, or null when there is none. */
    method Assign() returns (ns: NodeSpec?)
      requires Valid()
      ensures ns == null <==> workNodes == map[]
      ensures ns != null ==> ns.id in workNodes && workNodes[ns.id] == ns && Least(Payloads(), ns.id)
    {
      var candidates: seq<NodeSpec> := [];
      var keys := workNodes.Keys;
      while keys != {}
        invariant keys <= workNodes.Keys
        invariant forall n :: n in candidates <==> exists k :: k in workNodes.Keys - keys && workNodes[k] == n
        decreases keys
      {
        var k :| k in keys;
        candidates := candidates + [workNodes[k]];
        keys := keys - {k};
      }
      assert forall k | k in workNodes :: workNodes[k] in candidates;
      var sorted := SortByPayload(candidates);
      assert forall n :: n in sorted <==> n in multiset(sorted);
      assert forall n :: n in candidates <==> n in multiset(candidates);
      if |sorted| > 0 {
        ns := sorted[0];
        assert ns in sorted;
        assert forall k | k in workNodes :: workNodes[k] in sorted;
      } else {
        assert forall k | k in workNodes :: workNodes[k] in sorted;
        ns := null;
      }
    }

    /** The first half of addResources: a new id, a least-loaded node, and the assignment written into
        the object before the store is asked. */
    method AssignTo(r: ResourceSpec, call: nat) returns (ns: NodeSpec?)
      requires Valid()
      modifies r
      ensures r.id == env.idAt(call)
      ensures ns == null <==> workNodes == map[]
      ensures if ns == null then
                r.assignedNode == old(r.assignedNode) && r.creationTime == old(r.creationTime)
              else
                && ns.id in workNodes && workNodes[ns.id] == ns && Least(Payloads(), ns.id)
                && r.assignedNode == Assigned(ns.id, ns.address) && r.creationTime == env.clockAt(call)
      ensures Payloads() == old(Payloads())
      ensures Cache() == if Holds(r) then old(Cache())[r.name := r.Rec()] else old(Cache())
    {
      r.id := env.idAt(call);
      ns := Assign();
      if ns != null {
        r.assignedNode := ns.id + "|" + ns.address;
        r.creationTime := env.clockAt(call);
      }
    }

    /** One unit more for a live node. */
    method Charge(ns: NodeSpec)
      requires Valid() && ns.id in workNodes && workNodes[ns.id] == ns
      modifies ns`payload
      ensures Payloads() == Bump(old(Payloads()), ns.id) && Cache() == old(Cache())
    {
      ns.payload := ns.payload + 1;
      assert forall k | k in workNodes :: k != ns.id ==> workNodes[k] != ns;
    }

    /** The store and the map take the object. */
    method Hold(r: ResourceSpec)
      requires Valid()
      modifies this`resources, etcd
      ensures Valid() && resources == old(resources)[r.name := r]
      ensures etcd.kv == old(etcd.kv)[GetResourcePath(r.name) := L.Encoded(r.Rec())]
      ensures Cache() == old(Cache())[r.name := r.Rec()] && Payloads() == old(Payloads())
    {
      etcd.kv := etcd.kv[GetResourcePath(r.name) := L.Encoded(r.Rec())];
      resources := resources[r.name := r];
    }

    /** The second half of addResources: when the store takes the put, the object enters the map and its
        node is charged. */
    method Commit(r: ResourceSpec, ns: NodeSpec, call: nat) returns (ok: bool)
      requires Valid() && ns.id in workNodes && workNodes[ns.id] == ns
      modifies this`resources, etcd, ns`payload
      ensures Valid() && ok == env.putOk(call)
      ensures resources == if ok then old(resources)[r.name := r] else old(resources)
      ensures etcd.kv ==
              if ok then old(etcd.kv)[GetResourcePath(r.name) := L.Encoded(r.Rec())] else old(etcd.kv)
      ensures Payloads() == if ok then Bump(old(Payloads()), ns.id) else old(Payloads())
      ensures Cache() == if ok then old(Cache())[r.name := r.Rec()] else old(Cache())
    {
      ok := env.putOk(call);
      if ok {
        Hold(r);
        Charge(ns);
      }
    }

    /** Places one resource. `pick` is the least-loaded node that was chosen, when there is one. */
    method AddResources(r: ResourceSpec) returns (ns: NodeSpec?, ghost pick: string)
      requires Valid()
      modifies this`tick, this`resources, r, etcd, workNodes.Values
      ensures Valid() && tick == old(tick) + 1 && r.id == env.idAt(old(tick))
      ensures ns == null <==> workNodes == map[] || !env.putOk(old(tick))
      ensures if workNodes == map[] then
                r.assignedNode == old(r.assignedNode) && r.creationTime == old(r.creationTime)
              else
                && Least(old(Payloads()), pick)
                && r.assignedNode == Assigned(pick, workNodes[pick].address)
                && r.creationTime == env.clockAt(old(tick))
      ensures if ns == null then
                resources == old(resources) && etcd.kv == old(etcd.kv)
              else
                && ns == workNodes[pick] && ns.id == pick
                && resources == old(resources)[r.name := r]
                && etcd.kv == old(etcd.kv)[GetResourcePath(r.name) := L.Encoded(r.Rec())]
      ensures Payloads() == if ns == null then old(Payloads()) else Bump(old(Payloads()), pick)
      ensures Cache() == if ns != null || old(Holds(r)) then old(Cache())[r.name := r.Rec()] else old(Cache())
    {
      var call := tick;
      tick, pick := tick + 1, "";
      ns := AssignTo(r, call);
      assert Cache()[r.name := r.Rec()] == old(Cache())[r.name := r.Rec()];
      if ns != null {
        pick := ns.id;
        var ok := Commit(r, ns, call);
        if !ok {
          ns := null;
        }
      }
    }

    /** Adds a resource under a name, through a new object. Failure changes nothing a caller can see;
        success is one legal addition of the ledger. */
    method AddResource(name: string) returns (ns: NodeSpec?)
      requires Valid()
      modifies this`tick, this`resources, etcd, workNodes.Values
      ensures Valid() && workNodes == old(workNodes)
      ensures ns == null <==> workNodes == map[] || !env.putOk(old(tick))
      ensures tick == old(tick) + 1
      ensures resources.Keys == if ns == null then old(resources).Keys else old(resources).Keys + {name}
      ensures ns == null ==> resources == old(resources) && State() == old(State())
      ensures ns != null ==>
                && ns.id in workNodes && workNodes[ns.id] == ns && Least(old(Payloads()), ns.id)
                && State() == L.Next(old(State()),
                                     L.Add(name, env.idAt(old(tick)), env.clockAt(old(tick)), ns.id, ns.address, true))
    {
      ghost var before, pick := State(), "";
      var r := new ResourceSpec(L.Record("", name, "", 0));
      assert !Holds(r) && Cache() == before.cache && Payloads() == before.loads;
      ns, pick := AddResources(r);
      if ns != null {
        ghost var op := L.Add(name, env.idAt(tick - 1), env.clockAt(tick - 1), ns.id, ns.address, true);
        assert r.Rec() == L.RecordOf(op);
        L.Added(before, Cache(), etcd.kv, Payloads(), op);
      }
    }

    /** Deletes a resource. A missing name and a store error change nothing; otherwise it is one legal
        deletion of the ledger, even when the assignment names no node and an error is returned. */
    method DeleteResource(name: string) returns (outcome: Deletion)
      requires Valid()
      modifies this`tick, this`resources, etcd, workNodes.Values
      ensures Valid() && workNodes == old(workNodes)
      ensures outcome == NoSuchTask <==> name !in old(resources)
      ensures tick == old(tick) + if name in old(resources) then 1 else 0
      ensures resources.Keys ==
              if name in old(resources) && env.deleteOk(old(tick)) then old(resources).Keys - {name}
              else old(resources).Keys
      ensures outcome == StoreError <==> name in old(resources) && !env.deleteOk(old(tick))
      ensures outcome == NoSuchTask || outcome == StoreError ==> State() == old(State())
      ensures outcome == Deleted || outcome == NoNodeID ==>
                && name in old(Cache())
                && State() == L.Next(old(State()), L.Delete(name, true))
                && (outcome == NoNodeID <==>
                      old(Cache())[name].assignedNode != "" && L.ChargedTo(old(Cache())[name]).None?)
    {
      if name !in resources {
        return NoSuchTask;
      }
      tick := tick + 1;
      if !env.deleteOk(tick - 1) {
        return StoreError;
      }
      ghost var before := State();
      outcome := Forget(name);
      L.Removed(before, Cache(), etcd.kv, Payloads(), L.Delete(name, true));
    }

    /** What DeleteResource does once the store has agreed. */
    method Forget(name: string) returns (outcome: Deletion)
      requires Valid() && name in resources
      modifies this`resources, etcd, workNodes.Values
      ensures Valid() && resources == old(resources) - {name}
      ensures Cache() == old(Cache()) - {name}
      ensures etcd.kv == old(etcd.kv) - {GetResourcePath(name)}
      ensures Payloads() == L.Released(old(Payloads()), old(Cache())[name])
      ensures outcome == if old(Cache())[name].assignedNode != "" && L.ChargedTo(old(Cache())[name]).None?
                         then NoNodeID else Deleted
    {
      var r := resources[name];
      etcd.kv := etcd.kv - {GetResourcePath(name)};
      resources := resources - {name};
      outcome := Release(r);
    }

    /** The end of DeleteResource: the node the resource was charged to loses one unit. */
    method Release(r: ResourceSpec) returns (outcome: Deletion)
      requires Valid()
      modifies workNodes.Values
      ensures outcome == if r.assignedNode != "" && L.ChargedTo(r.Rec()).None? then NoNodeID else Deleted
      ensures Payloads() == L.Released(old(Payloads()), old(r.Rec()))
    {
      if r.assignedNode != "" {
        var nodeID := GetNodeID(r.assignedNode);
        if nodeID.None? {
          return NoNodeID;
        }
        if nodeID.value in workNodes {
          var ns := workNodes[nodeID.value];
          ns.payload := ns.payload - 1;
          assert forall k | k in workNodes :: k != nodeID.value ==> workNodes[k] != ns;
        }
      }
      outcome := Deleted;
    }

    // -------------------------------------------------------------- reload

    /** Decodes every stored value under the prefix into a new object, by name. */
    method DecodeAll() returns (loaded: map<string, ResourceSpec>, ghost recs: L.Cache)
      ensures fresh(loaded.Values) && forall n | n in loaded :: loaded[n].name == n
      ensures recs == map n | n in loaded :: loaded[n].Rec()
      ensures L.DecodedFrom(recs, etcd.kv, etcd.kv.Keys)
    {
      loaded, recs := map[], map[];
      var keys := etcd.kv.Keys;
      while keys != {}
        invariant keys <= etcd.kv.Keys
        invariant forall n | n in loaded :: fresh(loaded[n]) && loaded[n].name == n
        invariant recs.Keys == loaded.Keys && forall n | n in loaded :: recs[n] == loaded[n].Rec()
        invariant L.DecodedFrom(recs, etcd.kv, etcd.kv.Keys - keys)
        decreases keys
      {
        var key :| key in keys;
        ghost var before := recs;
        if RESOURCEPATH <= key && etcd.kv[key].Encoded? {
          var r := new ResourceSpec(etcd.kv[key].rec);
          loaded := loaded[r.name := r];
          recs := recs[r.name := etcd.kv[key].rec];
        }
        L.DecodeOne(before, etcd.kv, etcd.kv.Keys - keys, key);
        assert etcd.kv.Keys - (keys - {key}) == (etcd.kv.Keys - keys) + {key};
        keys := keys - {key};
      }
      assert etcd.kv.Keys - keys == etcd.kv.Keys;
    }

    /** Charges every loaded resource to its node. */
    method ChargeAll()
      requires Valid()
      modifies workNodes.Values
      ensures Cache() == old(Cache())
      ensures forall k | k in workNodes ::
                workNodes[k].payload == old(workNodes[k].payload) + |L.On(Cache(), k)|
    {
      var names := resources.Keys;
      ghost var cache := Cache();
      ghost var done: L.Cache := map[];
      while names != {}
        invariant names <= resources.Keys && Cache() == cache
        invariant done.Keys == resources.Keys - names
        invariant forall n | n in done :: done[n] == cache[n]
        invariant forall k | k in workNodes ::
                    workNodes[k].payload == old(workNodes[k].payload) + |L.On(done, k)|
        decreases names
      {
        var n :| n in names;
        names := names - {n};
        var r := resources[n];
        ChargeOne(r);
        forall k | k in workNodes
          ensures |L.On(done[n := cache[n]], k)| ==
                  |L.On(done, k)| + if L.LookedUp(cache[n]) == Some(k) then 1 else 0
        {
          L.OnUpdate(done, cache[n], k);
        }
        done := done[n := cache[n]];
      }
      assert done == cache;
    }

    /** One pass of the loop in loadResource: on a malformed assignment the looked-up id is empty. */
    method ChargeOne(r: ResourceSpec)
      requires Valid()
      modifies workNodes.Values
      ensures forall k | k in workNodes ::
                workNodes[k].payload ==
                old(workNodes[k].payload) + if L.LookedUp(r.Rec()) == Some(k) then 1 else 0
    {
      if r.assignedNode != "" {
        var nodeID := GetNodeID(r.assignedNode);
        var id := if nodeID.Some? then nodeID.value else "";
        if id in workNodes {
          var node := workNodes[id];
          node.payload := node.payload + 1;
          assert forall k | k in workNodes :: k != id ==> workNodes[k] != node;
        }
      }
    }

    /** Loads the store, as a master does on becoming leader. The new resource map holds what the store
        decodes to, and on a canonical store agrees with it exactly; every live node is charged with the
        resources assigned to it. */
    method LoadResource() returns (ok: bool)
      requires Valid()
      modifies this`tick, this`resources, workNodes.Values
      ensures Valid() && workNodes == old(workNodes) && etcd.kv == old(etcd.kv)
      ensures ok == env.getOk(old(tick))
      ensures !ok ==> resources == old(resources) && Payloads() == old(Payloads())
      ensures ok ==> L.DecodedFrom(Cache(), etcd.kv, etcd.kv.Keys)
      ensures ok && L.Canonical(etcd.kv) ==> L.Agree(Cache(), etcd.kv)
      ensures ok ==> forall k | k in workNodes ::
                workNodes[k].payload == old(workNodes[k].payload) + |L.On(Cache(), k)|
    {
      tick := tick + 1;
      if !env.getOk(tick - 1) {
        return false;
      }
      LoadAll();
      ok := true;
    }

    /** What LoadResource does once the store has answered. */
    method LoadAll()
      requires Valid()
      modifies this`resources, workNodes.Values
      ensures Valid()
      ensures L.DecodedFrom(Cache(), etcd.kv, etcd.kv.Keys)
      ensures L.Canonical(etcd.kv) ==> L.Agree(Cache(), etcd.kv)
      ensures forall k | k in workNodes ::
                workNodes[k].payload == old(workNodes[k].payload) + |L.On(Cache(), k)|
    {
      ghost var recs;
      resources, recs := DecodeAll();
      assert Cache() == recs;
      if L.Canonical(etcd.kv) {
        L.DecodedAgrees(recs, etcd.kv);
      }
      ChargeAll();
    }

    /** A master that reads the registry and then becomes leader: every live node is charged with exactly
        the resources assigned to it. */
    method TakeOver(listed: seq<(string, string)>) returns (ok: bool)
      requires Valid()
      modifies this`tick, this`workNodes, this`resources
      ensures Valid() && ok == env.getOk(old(tick)) && etcd.kv == old(etcd.kv)
      ensures forall k :: k in workNodes <==> exists i :: 0 <= i < |listed| && listed[i].0 == k
      ensures ok ==> L.DecodedFrom(Cache(), etcd.kv, etcd.kv.Keys)
      ensures ok && L.Canonical(etcd.kv) ==> L.Agree(Cache(), etcd.kv)
      ensures ok ==> forall k | k in workNodes :: L.Drift(Cache(), Payloads(), k) == 0
    {
      UpdateWorkNodes(listed);
      ok := LoadResource();
    }

    // -------------------------------------------------------------- reassignment

    /** The objects of the map that are on no live node, each once. */
    method Strays() returns (rs: seq<ResourceSpec>)
      requires Valid()
      ensures forall i | 0 <= i < |rs| :: rs[i].name in resources && resources[rs[i].name] == rs[i]
      ensures L.Enumerates(Names(rs), Cache(), workNodes.Keys)
    {
      rs := [];
      var names := resources.Keys;
      while names != {}
        invariant names <= resources.Keys
        invariant forall i | 0 <= i < |rs| :: rs[i].name in resources && resources[rs[i].name] == rs[i]
        invariant forall i, j | 0 <= i < j < |rs| :: Names(rs)[i] != Names(rs)[j]
        invariant forall n :: n in Names(rs) <==> n in L.Stranded(Cache(), workNodes.Keys) && n !in names
        decreases names
      {
        var n :| n in names;
        names := names - {n};
        var r := resources[n];
        assert Cache()[n] == r.Rec() && Names(rs + [r]) == Names(rs) + [n];
        if r.assignedNode == "" {
          rs := rs + [r];
          continue;
        }
        var nodeID := GetNodeID(r.assignedNode);
        var id := if nodeID.Some? then nodeID.value else "";
        if id !in workNodes {
          rs := rs + [r];
        }
      }
    }

    /** addResources on an object the map holds. */
    method Move(r: ResourceSpec) returns (ghost rec: L.Record, ghost ok: bool, ghost pick: string)
      requires Valid() && r.name in resources && resources[r.name] == r
      modifies this`tick, this`resources, r, etcd, workNodes.Values
      ensures Valid() && resources == old(resources) && tick == old(tick) + 1
      ensures L.MovesOne(env, Addresses(), old(State()), State(), old(r.Rec()), old(tick), rec, ok, pick)
    {
      var ns;
      ns, pick := AddResources(r);
      rec, ok := r.Rec(), ns != null;
      assert workNodes == map[] <==> Addresses() == map[] by {
        assert Addresses().Keys == workNodes.Keys;
      }
      assert workNodes != map[] ==> L.OnNode(Addresses(), rec, pick);
    }

    /** One pass of the second loop of reAssign. */
    method MoveNext(r: ResourceSpec, ghost before: L.State, ghost start: nat, ghost ids: seq<string>,
                    ghost recs: seq<L.Record>, ghost stored: seq<bool>, ghost picks: seq<string>)
      returns (ghost recs': seq<L.Record>, ghost stored': seq<bool>, ghost picks': seq<string>)
      requires Valid() && r.name in resources && resources[r.name] == r
      requires (forall i, j | 0 <= i < j < |ids| :: ids[i] != ids[j]) && |recs| < |ids| && ids[|recs|] == r.name
      requires r.name in before.cache && tick == start + |recs|
      requires L.Reassigned(env, Addresses(), before, State(), start, ids, recs, stored, picks)
      modifies this`tick, this`resources, r, etcd, workNodes.Values
      ensures Valid() && resources == old(resources) && tick == old(tick) + 1 && |recs'| == |recs| + 1
      ensures L.Reassigned(env, Addresses(), before, State(), start, ids, recs', stored', picks')
    {
      ghost var mid, was := State(), r.Rec();
      assert mid.cache[r.name] == was;
      L.NotYetMoved(env, Addresses(), before, mid, start, ids, recs, stored, picks);
      ghost var rec, ok, pick;
      rec, ok, pick := Move(r);
      L.ReassignOneMore(env, Addresses(), before, mid, State(), start, ids, recs, stored, picks,
                        was, old(tick), rec, ok, pick);
      recs', stored' := recs + [rec], stored + [ok];
      picks' := picks + [pick];
    }

    /** The second loop of reAssign, over the strays the first one collected. */
    method MoveAll(rs: seq<ResourceSpec>, ghost ids: seq<string>)
      returns (ghost recs: seq<L.Record>, ghost stored: seq<bool>, ghost picks: seq<string>)
      requires Valid() && |ids| == |rs| && (forall i, j | 0 <= i < j < |ids| :: ids[i] != ids[j])
      requires forall i | 0 <= i < |rs| :: ids[i] in resources && resources[ids[i]] == rs[i]
      modifies this`tick, this`resources, etcd, workNodes.Values, resources.Values
      ensures Valid() && workNodes == old(workNodes) && resources == old(resources)
      ensures L.Reassigned(env, Addresses(), old(State()), State(), old(tick), ids, recs, stored, picks)
      ensures |recs| == |ids|
    {
      recs, stored, picks := [], [], [];
      ghost var before, start := State(), tick;
      for i := 0 to |rs|
        invariant Valid() && resources == old(resources) && tick == start + i && |recs| == i
        invariant L.Reassigned(env, Addresses(), before, State(), start, ids, recs, stored, picks)
      {
        recs, stored, picks := MoveNext(rs[i], before, start, ids, recs, stored, picks);
      }
    }

    /** Moves every resource that is on no live node, mutating the very objects the map holds. */
    method ReAssign()
      returns (ghost ids: seq<string>, ghost recs: seq<L.Record>, ghost stored: seq<bool>, ghost picks: seq<string>)
      requires Valid()
      modifies this`tick, this`resources, etcd, workNodes.Values, resources.Values
      ensures Valid() && workNodes == old(workNodes) && resources == old(resources)
      ensures L.Enumerates(ids, old(Cache()), workNodes.Keys)
      ensures L.Reassigned(env, Addresses(), old(State()), State(), old(tick), ids, recs, stored, picks)
      ensures |recs| == |ids|
    {
      var rs := Strays();
      ids := Names(rs);
      recs, stored, picks := MoveAll(rs, ids);
    }

    // -------------------------------------------------------------- runs of calls

    /** One call of a client. An addition is answered by a ledger addition exactly when some node is live and
        the store takes the put, a deletion by a ledger deletion exactly when the name is held and the store
        takes it; any other call changes nothing. */
    method Answer(command: Command) returns (ghost op: Option<L.Op>)
      requires Valid()
      modifies this`tick, this`resources, etcd, workNodes.Values
      ensures Valid() && workNodes == old(workNodes)
      ensures match command
              case Adding(name) =>
                && tick == old(tick) + 1
                && resources.Keys == (if op.Some? then old(resources).Keys + {name} else old(resources).Keys)
                && (op.Some? <==> workNodes != map[] && env.putOk(old(tick)))
                && (op.Some? ==>
                      && op.value.Add? && op.value.pick in workNodes
                      && op.value == L.Add(name, env.idAt(old(tick)), env.clockAt(old(tick)), op.value.pick,
                                           workNodes[op.value.pick].address, true))
              case Deleting(name) =>
                && tick == old(tick) + (if name in old(resources) then 1 else 0)
                && resources.Keys == (if op.Some? then old(resources).Keys - {name} else old(resources).Keys)
                && op == if name in old(resources) && env.deleteOk(old(tick)) then Some(L.Delete(name, true)) else None
      ensures op.Some? ==> L.Legal(old(State()), op.value)
      ensures State() == if op.None? then old(State()) else L.Next(old(State()), op.value)
    {
      ghost var call := tick;
      op := None;
      match command {
        case Adding(name) =>
          var ns := AddResource(name);
          if ns != null {
            op := Some(L.Add(name, env.idAt(call), env.clockAt(call), ns.id, ns.address, true));
          }
        case Deleting(name) =>
          var outcome := DeleteResource(name);
          if outcome == Deleted || outcome == NoNodeID {
            op := Some(L.Delete(name, true));
          }
      }
    }

    ghost function Held(): Holding
      reads this`resources, this`tick
    {
      Holding(resources.Keys, tick)
    }

    /** Any sequence of client calls, answered in turn, is a run of the ledger, so it keeps what runs keep.
        The k-th answer is the addition or deletion that the k-th command asks for, or nothing where the
        store or the lack of nodes or of the name stands against it. */
    method Serve(commands: seq<Command>) returns (ghost answers: seq<Option<L.Op>>)
      requires Valid()
      modifies this`tick, this`resources, etcd, workNodes.Values
      ensures Valid() && workNodes == old(workNodes)
      ensures |answers| == |commands| && L.Exec(old(State()), Somes(answers)) == Some(State())
      ensures forall k | 0 <= k < |commands| ::
                var h := HeldAfter(env, workNodes != map[], old(Held()), commands[..k]);
                match commands[k]
                case Adding(name) =>
                  if workNodes != map[] && env.putOk(h.tick) then
                    && answers[k].Some? && answers[k].value.Add? && answers[k].value.stored
                    && answers[k].value.name == name && answers[k].value.id == env.idAt(h.tick)
                    && answers[k].value.time == env.clockAt(h.tick)
                  else answers[k].None?
                case Deleting(name) =>
                  answers[k] == if name in h.names && env.deleteOk(h.tick) then Some(L.Delete(name, true)) else None
      ensures Held() == HeldAfter(env, workNodes != map[], old(Held()), commands)
      ensures L.Agree(old(Cache()), old(etcd.kv)) ==> L.Agree(Cache(), etcd.kv)
    {
      answers := [];
      ghost var start, first, live := State(), Held(), workNodes != map[];
      for i := 0 to |commands|
        invariant Valid() && workNodes == old(workNodes) && |answers| == i
        invariant L.Exec(start, Somes(answers)) == Some(State())
        invariant Held() == HeldAfter(env, live, first, commands[..i])
        invariant forall k | 0 <= k < i ::
                    Answered(env, live, HeldAfter(env, live, first, commands[..k]), commands[k], answers[k])
      {
        ghost var op, mid := None, State();
        op := AnswerNext(commands[i]);
        RunSnoc(start, mid, State(), answers, op);
        HeldSnoc(env, live, first, commands, i);
        answers := answers + [op];
      }
      assert commands[..|commands|] == commands;
      if L.Agree(start.cache, start.kv) {
        L.RunsAgree(start, Somes(answers));
      }
    }

    /** Answer, told by what is held before and after. */
    method AnswerNext(command: Command) returns (ghost op: Option<L.Op>)
      requires Valid()
      modifies this`tick, this`resources, etcd, workNodes.Values
      ensures Valid() && workNodes == old(workNodes)
      ensures Answered(env, workNodes != map[], old(Held()), command, op)
      ensures Held() == HeldAfter(env, workNodes != map[], old(Held()), [command])
      ensures op.Some? ==> L.Legal(old(State()), op.value)
      ensures State() == if op.None? then old(State()) else L.Next(old(State()), op.value)
    {
      op := Answer(command);
      assert [command][..0] == [];
    }
  }

  /** This is the answer to the command, given what was held. */
  ghost predicate Answered(env: L.Env, live: bool, h: Holding, command: Command, answer: Option<L.Op>) {
    match command
    case Adding(name) =>
      if live && env.putOk(h.tick) then
        && answer.Some? && answer.value.Add? && answer.value.stored && answer.value.name == name
        && answer.value.id == env.idAt(h.tick) && answer.value.time == env.clockAt(h.tick)
      else answer.None?
    case Deleting(name) =>
      answer == if name in h.names && env.deleteOk(h.tick) then Some(L.Delete(name, true)) else None
  }

  lemma {:induction false} RunSnoc(
    start: L.State, mid: L.State, end: L.State, answers: seq<Option<L.Op>>, op: Option<L.Op>)
    requires L.Exec(start, Somes(answers)) == Some(mid) && (op.Some? ==> L.Legal(mid, op.value))
    requires end == if op.None? then mid else L.Next(mid, op.value)
    ensures L.Exec(start, Somes(answers + [op])) == Some(end)
  {
    assert (answers + [op])[..|answers|] == answers;
    if op.Some? {
      L.ExecSnoc(start, Somes(answers), op.value);
    } else {
      assert Somes(answers) + [] == Somes(answers);
    }
  }

  lemma {:induction false} HeldSnoc(env: L.Env, live: bool, h: Holding, commands: seq<Command>, i: nat)
    requires i < |commands|
    ensures HeldAfter(env, live, h, commands[..i + 1]) ==
            HeldAfter(env, live, HeldAfter(env, live, h, commands[..i]), [commands[i]])
  {
    assert commands[..i + 1][..i] == commands[..i] && [commands[i]][..0] == [];
  }

  /** A standby master that takes over holds what an active master in agreement with the store holds. */
  method HandOver(active: Master, standby: Master, listed: seq<(string, string)>) returns (ok: bool)
    requires active != standby && active.etcd == standby.etcd && standby.Valid()
    requires L.Agree(active.Cache(), active.etcd.kv)
    modifies standby`tick, standby`workNodes, standby`resources
    ensures ok == standby.env.getOk(old(standby.tick)) && active.etcd.kv == old(active.etcd.kv)
    ensures active.Cache() == old(active.Cache())
    ensures ok ==> standby.Cache() == active.Cache()
    ensures ok ==> forall k | k in standby.workNodes :: L.Drift(active.Cache(), standby.Payloads(), k) == 0
  {
    ghost var held := active.Cache();
    ok := standby.TakeOver(listed);
    assert active.Cache() == held;
    if ok {
      L.AgreementIsUnique(standby.Cache(), held, active.etcd.kv);
    }
  }

  /** Failover: whatever clients asked of the active master, and however the store answered, a standby
      master over the same store that then reads the registry and loads holds the same resources, and
      charges each of its nodes with exactly the resources assigned to it. */
  method FailOver(active: Master, standby: Master, commands: seq<Command>, listed: seq<(string, string)>)
    returns (ok: bool)
    requires active != standby && active.etcd == standby.etcd && active.Valid() && standby.Valid()
    requires L.Agree(active.Cache(), active.etcd.kv)
    modifies active`tick, active`resources, active.etcd, active.workNodes.Values
    modifies standby`tick, standby`workNodes, standby`resources
    ensures ok == standby.env.getOk(old(standby.tick))
    ensures L.Agree(active.Cache(), active.etcd.kv)
    ensures active.Held() == HeldAfter(active.env, active.workNodes != map[], old(active.Held()), commands)
    ensures ok ==> standby.Cache() == active.Cache() && standby.resources.Keys == active.Held().names
    ensures ok ==> forall k | k in standby.workNodes :: L.Drift(active.Cache(), standby.Payloads(), k) == 0
  {
    ghost var answers;
    answers := active.Serve(commands);
    ok := HandOver(active, standby, listed);
    assert active.resources.Keys == active.Cache().Keys && standby.resources.Keys == standby.Cache().Keys;
  }
}
