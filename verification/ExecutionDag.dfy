/** The replay-safe execution DAG (`ExecutionDAG` in `distributed_coordinator.py`): readiness,
    marking, saving and loading, and what a driver that starts ready nodes and finishes running
    ones achieves. */
module ExecutionDag {
  import opened Wrappers
  import opened DependencyGraph

  datatype Status = Pending | Running | Done | Failed | Skipped

  /** `requiresDone` and `requiresEpoch` are the causal gate's `requires_nodes_done` and
      `requires_epoch`. */
  datatype Node = Node(dependsOn: seq<string>, status: Status, requiresDone: seq<string>, requiresEpoch: Option<int>)

  type Nodes = map<string, Node>

  predicate Has(nodes: Nodes, id: string, status: Status) {
    id in nodes && nodes[id].status == status
  }

  predicate IsReady(nodes: Nodes, id: string) {
    Has(nodes, id, Pending) && forall d :: d in nodes[id].dependsOn ==> Has(nodes, d, Done)
  }

  predicate GateOpen(nodes: Nodes, id: string) {
    id in nodes && forall d :: d in nodes[id].requiresDone ==> Has(nodes, d, Done)
  }

  /** The gate as its documentation has it: a required epoch must be the current one. */
  predicate DocumentedGate(nodes: Nodes, id: string, epoch: int) {
    && id in nodes
    && (nodes[id].requiresEpoch.Some? ==> nodes[id].requiresEpoch.value == epoch)
    && forall d :: d in nodes[id].requiresDone ==> Has(nodes, d, Done)
  }

  /** The code never looks at the required epoch. Its gate is the documented one exactly when the node
      is unknown, requires no epoch or the current one, or has a required node that is not done. */
  lemma GateAsDocumentedExactly(nodes: Nodes, id: string, epoch: int)
    ensures (GateOpen(nodes, id) <==> DocumentedGate(nodes, id, epoch)) <==>
              || id !in nodes
              || nodes[id].requiresEpoch in {None, Some(epoch)}
              || exists d :: d in nodes[id].requiresDone && !Has(nodes, d, Done)
  {
  }

  predicate Complete(nodes: Nodes) {
    forall id :: id in nodes ==> nodes[id].status in {Done, Failed, Skipped}
  }

  function Mark(nodes: Nodes, id: string, status: Status): Nodes {
    if id in nodes then nodes[id := nodes[id].(status := status)] else nodes
  }

  function Saved(nodes: Nodes): map<string, Status> {
    map id | id in nodes :: nodes[id].status
  }

  /** Loading overwrites the status of the nodes both sides know. */
  function Loaded(nodes: Nodes, saved: map<string, Status>): Nodes {
    map id | id in nodes :: if id in saved then nodes[id].(status := saved[id]) else nodes[id]
  }

  function StructureOf(nodes: Nodes): Graph {
    map id | id in nodes :: nodes[id].dependsOn
  }

  // ---------------------------------------------------------------- the class

  class ExecutionDAG {
    var nodes: Nodes
    var order: seq<string>

    ghost predicate Valid()
      reads this
    {
      && (forall id :: id in nodes <==> id in order)
      && (forall i, j :: 0 <= i < j < |order| ==> order[i] != order[j])
    }

    constructor ()
      ensures Valid() && nodes == map[] && order == []
    {
      nodes, order := map[], [];
    }

    method AddNode(id: string, dependsOn: seq<string>, requiresDone: seq<string>, requiresEpoch: Option<int>)
      requires Valid()
      modifies this
      ensures Valid()
      ensures nodes == old(nodes)[id := Node(dependsOn, Pending, requiresDone, requiresEpoch)]
      ensures order == if id in old(nodes) then old(order) else old(order) + [id]
    {
      if id !in nodes {
        order := order + [id];
      }
      nodes := nodes[id := Node(dependsOn, Pending, requiresDone, requiresEpoch)];
    }

    method DependenciesDone(id: string) returns (ok: bool)
      requires id in nodes
      ensures ok == forall d :: d in nodes[id].dependsOn ==> Has(nodes, d, Done)
    {
      var deps := nodes[id].dependsOn;
      for i := 0 to |deps|
        invariant forall k :: 0 <= k < i ==> Has(nodes, deps[k], Done)
      {
        if !Has(nodes, deps[i], Done) {
          assert deps[i] in deps;
          return false;
        }
      }
      ok := true;
    }

    /** Exactly the ready nodes, each once, in the order they were added. */
    method ReadyNodes() returns (ready: seq<string>)
      requires Valid()
      ensures forall id :: id in ready <==> IsReady(nodes, id)
      ensures exists at: seq<nat> ::
        && |at| == |ready|
        && (forall k :: 0 <= k < |at| ==> at[k] < |order| && order[at[k]] == ready[k])
        && (forall k, m :: 0 <= k < m < |at| ==> at[k] < at[m])
    {
      ready := [];
      ghost var at: seq<nat> := [];
      for i := 0 to |order|
        invariant forall id :: id in ready <==> id in order[..i] && IsReady(nodes, id)
        invariant |at| == |ready|
        invariant forall k :: 0 <= k < |at| ==> at[k] < i && order[at[k]] == ready[k]
        invariant forall k, m :: 0 <= k < m < |at| ==> at[k] < at[m]
      {
        var id := order[i];
        assert order[..i + 1] == order[..i] + [id];
        assert id in nodes by { assert id in order; }
        if nodes[id].status == Pending {
          var ok := DependenciesDone(id);
          if ok {
            ready := ready + [id];
            at := at + [i];
          }
        }
      }
      assert order[..|order|] == order;
    }

    method MarkRunning(id: string)
      requires Valid()
      modifies this`nodes
      ensures Valid() && nodes == Mark(old(nodes), id, Running)
    {
      if id in nodes { nodes := nodes[id := nodes[id].(status := Running)]; }
    }

    method MarkDone(id: string)
      requires Valid()
      modifies this`nodes
      ensures Valid() && nodes == Mark(old(nodes), id, Done)
    {
      if id in nodes { nodes := nodes[id := nodes[id].(status := Done)]; }
    }

    method MarkFailed(id: string)
      requires Valid()
      modifies this`nodes
      ensures Valid() && nodes == Mark(old(nodes), id, Failed)
    {
      if id in nodes { nodes := nodes[id := nodes[id].(status := Failed)]; }
    }

    method CheckCausalGate(id: string) returns (ok: bool)
      ensures ok == GateOpen(nodes, id)
    {
      if id !in nodes {
        return false;
      }
      var required := nodes[id].requiresDone;
      for i := 0 to |required|
        invariant forall k :: 0 <= k < i ==> Has(nodes, required[k], Done)
      {
        if !Has(nodes, required[i], Done) {
          assert required[i] in required;
          return false;
        }
      }
      ok := true;
    }

    method LoadState(saved: map<string, Status>)
      requires Valid()
      modifies this`nodes
      ensures Valid() && nodes == Loaded(old(nodes), saved)
    {
      var left := saved.Keys;
      while left != {}
        invariant left <= saved.Keys && nodes.Keys == old(nodes).Keys
        invariant forall id :: id in nodes ==>
          nodes[id] == if id in saved && id !in left then old(nodes)[id].(status := saved[id]) else old(nodes)[id]
        decreases |left|
      {
        var id :| id in left;
        if id in nodes { nodes := nodes[id := nodes[id].(status := saved[id])]; }
        left := left - {id};
      }
      assert nodes == Loaded(old(nodes), saved);
    }
  }

  // ---------------------------------------------------------------- stalls

  predicate Halted(nodes: Nodes, id: string) {
    Has(nodes, id, Failed) || Has(nodes, id, Skipped)
  }

  /** The dependencies that still matter: those of nodes that are not done. */
  function OpenStructure(nodes: Nodes): Graph {
    map id | id in nodes :: if nodes[id].status == Done then [] else nodes[id].dependsOn
  }

  /** A pending node that waits, through nodes not done, for one that failed or was skipped. */
  ghost predicate Hopeless(nodes: Nodes, id: string) {
    Has(nodes, id, Pending) && exists c :: Halted(nodes, c) && DependsOn(OpenStructure(nodes), id, c)
  }

  lemma OpenPathIsPath(nodes: Nodes, p: seq<string>)
    requires IsPath(OpenStructure(nodes), p)
    ensures IsPath(StructureOf(nodes), p)
  {
    assert forall i :: 0 <= i < |p| ==> p[i] in OpenStructure(nodes);
  }

  lemma OpenDependsOn(nodes: Nodes, id: string, c: string)
    requires DependsOn(OpenStructure(nodes), id, c)
    ensures DependsOn(StructureOf(nodes), id, c)
  {
    var p :| IsPath(OpenStructure(nodes), p) && |p| >= 2 && p[0] == id && p[|p| - 1] == c;
    OpenPathIsPath(nodes, p);
  }

  /** When nothing is ready and nothing runs, every pending node of an acyclic closed graph is hopeless. */
  lemma PendingIsHopeless(nodes: Nodes, id: string)
    requires Closed(StructureOf(nodes)) && Acyclic(StructureOf(nodes))
    requires forall n :: n in nodes ==> !IsReady(nodes, n) && nodes[n].status != Running
    requires Has(nodes, id, Pending)
    ensures Hopeless(nodes, id)
  {
    var g := OpenStructure(nodes);
    forall p | IsPath(g, p) && |p| >= 2 ensures p[0] != p[|p| - 1] { OpenPathIsPath(nodes, p); }
    var stuck := set n | n in nodes && nodes[n].status != Done;
    var cause := set n | n in nodes && Halted(nodes, n);
    forall m | m in stuck && m !in cause ensures exists d :: d in g[m] && d in stuck {
      assert !IsReady(nodes, m);
      var d :| d in nodes[m].dependsOn && !Has(nodes, d, Done);
      assert m in StructureOf(nodes) && d in StructureOf(nodes)[m];
      assert d in StructureOf(nodes) && d in g[m];
    }
    StuckHasCause(g, id, stuck, cause);
  }

  /** So it has a failed or skipped transitive dependency. */
  lemma PendingHasCause(nodes: Nodes, id: string)
    requires Closed(StructureOf(nodes)) && Acyclic(StructureOf(nodes))
    requires forall n :: n in nodes ==> !IsReady(nodes, n) && nodes[n].status != Running
    requires Has(nodes, id, Pending)
    ensures exists c :: (Has(nodes, c, Failed) || Has(nodes, c, Skipped)) && DependsOn(StructureOf(nodes), id, c)
  {
    PendingIsHopeless(nodes, id);
    var c :| Halted(nodes, c) && DependsOn(OpenStructure(nodes), id, c);
    OpenDependsOn(nodes, id, c);
  }

  // ---------------------------------------------------------------- driver runs

  datatype Event = Start(id: string) | Finish(id: string) | Fail(id: string)

  predicate Allowed(nodes: Nodes, e: Event) {
    match e
    case Start(id) => IsReady(nodes, id)
    case Finish(id) => Has(nodes, id, Running)
    case Fail(id) => Has(nodes, id, Running)
  }

  function After(nodes: Nodes, e: Event): Nodes {
    Mark(nodes, e.id, match e case Start(_) => Running case Finish(_) => Done case Fail(_) => Failed)
  }

  function RunFrom(nodes: Nodes, events: seq<Event>): Nodes {
    if events == [] then nodes else After(RunFrom(nodes, events[..|events| - 1]), events[|events| - 1])
  }

  predicate Legal(nodes: Nodes, events: seq<Event>) {
    events != [] ==>
      && Legal(nodes, events[..|events| - 1])
      && Allowed(RunFrom(nodes, events[..|events| - 1]), events[|events| - 1])
  }

  function Bit(b: bool): nat {
    if b then 1 else 0
  }

  /** Node by node, the events of a run account for the change of status: a node is started at most
      once, only if it was pending, and ends at most once for each start. */
  lemma {:induction false} EventsAccount(nodes: Nodes, events: seq<Event>, id: string)
    requires Legal(nodes, events)
    ensures var now, count := RunFrom(nodes, events), multiset(events);
            && StructureOf(now) == StructureOf(nodes)
            && count[Start(id)] + Bit(Has(now, id, Pending)) == Bit(Has(nodes, id, Pending))
            && count[Finish(id)] + Bit(Has(nodes, id, Done)) == Bit(Has(now, id, Done))
            && count[Fail(id)] + Bit(Has(nodes, id, Failed)) == Bit(Has(now, id, Failed))
            && Has(now, id, Skipped) == Has(nodes, id, Skipped)
  {
    if events != [] {
      var init, last := events[..|events| - 1], events[|events| - 1];
      EventsAccount(nodes, init, id);
      EventAccounts(RunFrom(nodes, init), last, id);
      assert events == init + [last];
      forall e ensures multiset(events)[e] == multiset(init)[e] + Bit(last == e) {}
    }
  }

  lemma EventAccounts(nodes: Nodes, e: Event, id: string)
    requires Allowed(nodes, e)
    ensures var now := After(nodes, e);
            && StructureOf(now) == StructureOf(nodes)
            && Bit(e == Start(id)) + Bit(Has(now, id, Pending)) == Bit(Has(nodes, id, Pending))
            && Bit(e == Finish(id)) + Bit(Has(nodes, id, Done)) == Bit(Has(now, id, Done))
            && Bit(e == Fail(id)) + Bit(Has(nodes, id, Failed)) == Bit(Has(now, id, Failed))
            && Has(now, id, Skipped) == Has(nodes, id, Skipped)
  {
  }

  lemma PrefixLegal(nodes: Nodes, events: seq<Event>, j: nat)
    requires Legal(nodes, events) && j < |events|
    ensures Legal(nodes, events[..j]) && Allowed(RunFrom(nodes, events[..j]), events[j])
  {
    var init := events[..|events| - 1];
    if j < |events| - 1 {
      PrefixLegal(nodes, init, j);
      assert init[..j] == events[..j];
    }
  }

  /** Every run is a topological order: a node starts only after each dependency was finished, in
      this run or before it. */
  lemma TopologicalOrder(nodes: Nodes, events: seq<Event>, j: nat, id: string, d: string)
    requires Legal(nodes, events) && j < |events| && events[j] == Start(id)
    requires id in nodes && d in nodes[id].dependsOn
    ensures Has(nodes, d, Done) || exists i :: 0 <= i < j && events[i] == Finish(d)
  {
    var before := events[..j];
    PrefixLegal(nodes, events, j);
    EventsAccount(nodes, before, d);
    assert StructureOf(RunFrom(nodes, before))[id] == StructureOf(nodes)[id];
    if !Has(nodes, d, Done) {
      assert Finish(d) in multiset(before);
      assert Finish(d) in before;
    }
  }

  // ---------------------------------------------------------------- every run ends

  function WithStatus(nodes: Nodes, status: Status): set<string> {
    set id | id in nodes && nodes[id].status == status
  }

  function EventsLeft(nodes: Nodes): nat {
    2 * |WithStatus(nodes, Pending)| + |WithStatus(nodes, Running)|
  }

  lemma EventSpends(nodes: Nodes, e: Event)
    requires Allowed(nodes, e)
    ensures EventsLeft(After(nodes, e)) == EventsLeft(nodes) - 1
  {
    if e.Start? { StartSpends(nodes, e.id); } else { EndSpends(nodes, e); }
  }

  lemma StartSpends(nodes: Nodes, id: string)
    requires Has(nodes, id, Pending)
    ensures EventsLeft(Mark(nodes, id, Running)) == EventsLeft(nodes) - 1
  {
    assert WithStatus(Mark(nodes, id, Running), Pending) == WithStatus(nodes, Pending) - {id};
    assert WithStatus(Mark(nodes, id, Running), Running) == WithStatus(nodes, Running) + {id};
  }

  lemma EndSpends(nodes: Nodes, e: Event)
    requires !e.Start? && Has(nodes, e.id, Running)
    ensures EventsLeft(After(nodes, e)) == EventsLeft(nodes) - 1
  {
    assert WithStatus(After(nodes, e), Pending) == WithStatus(nodes, Pending);
    assert WithStatus(After(nodes, e), Running) == WithStatus(nodes, Running) - {e.id};
  }

  /** Each event of a run uses up one of a number of events fixed at its start. */
  lemma {:induction false} RunsEnd(nodes: Nodes, events: seq<Event>)
    requires Legal(nodes, events)
    ensures |events| + EventsLeft(RunFrom(nodes, events)) == EventsLeft(nodes)
  {
    if events != [] {
      var init := events[..|events| - 1];
      RunsEnd(nodes, init);
      EventSpends(RunFrom(nodes, init), events[|events| - 1]);
    }
  }

  predicate Sound(nodes: Nodes) {
    forall id :: id in nodes ==> nodes[id].status in {Pending, Running, Done}
  }

  predicate NoFailure(events: seq<Event>) {
    forall e :: e in events ==> !e.Fail?
  }

  /** A run without failures that nothing can extend has run every pending node exactly once and
      leaves the DAG complete, with every node done. */
  lemma MaximalRunCompletes(nodes: Nodes, events: seq<Event>)
    requires Closed(StructureOf(nodes)) && Acyclic(StructureOf(nodes)) && Sound(nodes)
    requires Legal(nodes, events) && NoFailure(events)
    requires forall e :: !Allowed(RunFrom(nodes, events), e)
    ensures forall id :: id in nodes ==> Has(RunFrom(nodes, events), id, Done)
    ensures Complete(RunFrom(nodes, events))
    ensures forall id :: multiset(events)[Start(id)] == Bit(Has(nodes, id, Pending))
                      && multiset(events)[Finish(id)] == Bit(id in nodes && nodes[id].status != Done)
  {
    var now := RunFrom(nodes, events);
    SoundRun(nodes, events);
    forall id | id in nodes ensures Has(now, id, Done) {
      assert id in StructureOf(now);
      StuckIsDone(now, id);
    }
    forall id ensures multiset(events)[Start(id)] == Bit(Has(nodes, id, Pending))
                   && multiset(events)[Finish(id)] == Bit(id in nodes && nodes[id].status != Done) {
      RanOnce(nodes, events, id);
    }
    assert forall id :: id in now ==> id in StructureOf(now);
  }

  lemma RanOnce(nodes: Nodes, events: seq<Event>, id: string)
    requires Legal(nodes, events)
    requires id in nodes ==> Has(RunFrom(nodes, events), id, Done)
    ensures multiset(events)[Start(id)] == Bit(Has(nodes, id, Pending))
    ensures multiset(events)[Finish(id)] == Bit(id in nodes && nodes[id].status != Done)
  {
    EventsAccount(nodes, events, id);
    assert id in RunFrom(nodes, events) <==> id in StructureOf(RunFrom(nodes, events));
  }

  lemma StuckIsDone(now: Nodes, id: string)
    requires Closed(StructureOf(now)) && Acyclic(StructureOf(now)) && Sound(now)
    requires forall e :: !Allowed(now, e)
    requires id in now
    ensures Has(now, id, Done)
  {
    forall n | n in now ensures !IsReady(now, n) && now[n].status != Running {
      assert !Allowed(now, Start(n)) && !Allowed(now, Finish(n));
    }
    if now[id].status == Pending { PendingHasCause(now, id); }
  }

  lemma {:induction false} SoundRun(nodes: Nodes, events: seq<Event>)
    requires Sound(nodes) && Legal(nodes, events) && NoFailure(events)
    ensures Sound(RunFrom(nodes, events))
    ensures StructureOf(RunFrom(nodes, events)) == StructureOf(nodes)
  {
    if events != [] {
      assert forall e :: e in events[..|events| - 1] ==> e in events;
      SoundRun(nodes, events[..|events| - 1]);
      assert events[|events| - 1] in events;
    }
  }

  // ---------------------------------------------------------------- saving and resuming

  /** What loading makes of a node: its status is the saved one if there is one and otherwise as it was;
      nothing else about it changes, and no node comes or goes. */
  lemma LoadedExactly(nodes: Nodes, saved: map<string, Status>, id: string)
    ensures id in Loaded(nodes, saved) <==> id in nodes
    ensures id in nodes ==>
              && (id in saved ==> Loaded(nodes, saved)[id] == nodes[id].(status := saved[id]))
              && (id !in saved ==> Loaded(nodes, saved)[id] == nodes[id])
  {
  }

  /** A saved state loaded into a DAG of the same structure restores it exactly, so readiness and
      gates are the same too. */
  lemma ReloadIsExact(blank: Nodes, nodes: Nodes)
    requires blank.Keys == nodes.Keys
    requires forall id :: id in nodes ==>
      blank[id].(status := nodes[id].status) == nodes[id]
    ensures Loaded(blank, Saved(nodes)) == nodes
  {
    forall id | id in nodes ensures Loaded(blank, Saved(nodes))[id] == nodes[id] {
      assert Saved(nodes)[id] == nodes[id].status;
    }
  }

  /** A driver that ends only what it started itself. */
  predicate OwnEnds(events: seq<Event>) {
    forall j :: 0 <= j < |events| && !events[j].Start? ==> Start(events[j].id) in events[..j]
  }

  /** Which saved states a new driver can bring to completion: exactly those with nothing running and
      no hopeless node. A node restored as running is never ready again and nobody is left to finish
      it; a hopeless one never becomes ready. */
  lemma ResumeCompletesExactly(nodes: Nodes)
    requires Closed(StructureOf(nodes)) && Acyclic(StructureOf(nodes))
    ensures (exists events :: Legal(nodes, events) && OwnEnds(events) && Complete(RunFrom(nodes, events)))
       <==> forall id :: id in nodes ==> nodes[id].status != Running && !Hopeless(nodes, id)
  {
    if events :| Legal(nodes, events) && OwnEnds(events) && Complete(RunFrom(nodes, events)) {
      forall id | id in nodes ensures nodes[id].status != Running {
        if nodes[id].status == Running { LostNodeStays(nodes, events, id); }
      }
      forall id | id in nodes ensures !Hopeless(nodes, id) {
        if Hopeless(nodes, id) { HopelessStays(nodes, events, id); }
      }
    }
    if forall id :: id in nodes ==> nodes[id].status != Running && !Hopeless(nodes, id) {
      var events := CompletingRun(nodes, []);
    }
  }

  lemma HopelessStays(nodes: Nodes, events: seq<Event>, id: string)
    requires Legal(nodes, events) && Hopeless(nodes, id)
    requires forall n :: n in nodes ==> nodes[n].status != Running
    ensures Has(RunFrom(nodes, events), id, Pending)
  {
    var c :| Halted(nodes, c) && DependsOn(OpenStructure(nodes), id, c);
    var p :| IsPath(OpenStructure(nodes), p) && |p| >= 2 && p[0] == id && p[|p| - 1] == c;
    ChainStays(nodes, events, p);
  }

  /** Along a chain of open dependencies that ends in a halted node no status ever changes. */
  lemma {:induction false} ChainStays(nodes: Nodes, events: seq<Event>, p: seq<string>)
    requires Legal(nodes, events) && IsPath(OpenStructure(nodes), p) && Halted(nodes, p[|p| - 1])
    requires forall n :: n in nodes ==> nodes[n].status != Running
    ensures SameStatuses(nodes, RunFrom(nodes, events), p)
  {
    if events == [] {
      assert forall k :: 0 <= k < |p| ==> p[k] in OpenStructure(nodes);
    } else {
      var init, last := events[..|events| - 1], events[|events| - 1];
      ChainStays(nodes, init, p);
      EventsAccount(nodes, init, last.id);
      ChainStep(nodes, RunFrom(nodes, init), p, last);
    }
  }

  predicate SameStatuses(nodes: Nodes, now: Nodes, p: seq<string>) {
    forall k :: 0 <= k < |p| ==> p[k] in nodes && Has(now, p[k], nodes[p[k]].status)
  }

  lemma ChainStep(nodes: Nodes, now: Nodes, p: seq<string>, e: Event)
    requires IsPath(OpenStructure(nodes), p) && Halted(nodes, p[|p| - 1])
    requires forall n :: n in nodes ==> nodes[n].status != Running
    requires StructureOf(now) == StructureOf(nodes) && SameStatuses(nodes, now, p) && Allowed(now, e)
    ensures SameStatuses(nodes, After(now, e), p)
  {
    if k: nat :| k < |p| && p[k] == e.id {
      assert Has(now, p[k], nodes[p[k]].status);
      if k < |p| - 1 {
        assert p[k + 1] in OpenStructure(nodes)[p[k]];
        assert p[k] in StructureOf(now) && p[k + 1] in StructureOf(now)[p[k]];
        NotDone(nodes, p, k + 1);
      }
    }
  }

  lemma NotDone(nodes: Nodes, p: seq<string>, k: nat)
    requires IsPath(OpenStructure(nodes), p) && Halted(nodes, p[|p| - 1]) && k < |p|
    ensures p[k] in nodes && nodes[p[k]].status != Done
  {
    assert p[k] in OpenStructure(nodes);
    if k < |p| - 1 { assert p[k + 1] in OpenStructure(nodes)[p[k]]; }
  }

  lemma LostNodeStays(nodes: Nodes, events: seq<Event>, id: string)
    requires Legal(nodes, events) && OwnEnds(events) && Has(nodes, id, Running)
    ensures Has(RunFrom(nodes, events), id, Running)
  {
    EventsAccount(nodes, events, id);
    var now := RunFrom(nodes, events);
    assert id in StructureOf(now);
    assert Start(id) !in multiset(events);
    assert Start(id) !in events;
    forall j | 0 <= j < |events| ensures events[j].id != id || events[j].Start? {
      assert forall e :: e in events[..j] ==> e in events;
    }
    assert Finish(id) !in multiset(events) && Fail(id) !in multiset(events);
  }

  lemma {:induction false} CompletingRun(nodes: Nodes, sofar: seq<Event>) returns (events: seq<Event>)
    requires Closed(StructureOf(nodes)) && Acyclic(StructureOf(nodes))
    requires Legal(nodes, sofar) && OwnEnds(sofar) && NoFailure(sofar)
    requires WithStatus(RunFrom(nodes, sofar), Running) == {}
    requires forall id :: !Hopeless(RunFrom(nodes, sofar), id)
    ensures Legal(nodes, events) && OwnEnds(events) && Complete(RunFrom(nodes, events))
    decreases EventsLeft(RunFrom(nodes, sofar))
  {
    var now := RunFrom(nodes, sofar);
    EventsAccount(nodes, sofar, "");
    if n :| n in now && IsReady(now, n) {
      RunNode(now, n);
      OwnEndsExtend(sofar, n);
      var finished := ExtendRun(nodes, sofar, n);
      forall id ensures !Hopeless(RunFrom(nodes, finished), id) { HopeKept(now, n, id); }
      events := CompletingRun(nodes, finished);
    } else {
      events := sofar;
      IdleIsComplete(now);
    }
  }

  /** Running a ready node leaves no other node hopeless. */
  lemma HopeKept(now: Nodes, n: string, id: string)
    requires IsReady(now, n) && !Hopeless(now, id)
    ensures !Hopeless(Mark(Mark(now, n, Running), n, Done), id)
  {
    var after := Mark(Mark(now, n, Running), n, Done);
    if Hopeless(after, id) {
      var c :| Halted(after, c) && DependsOn(OpenStructure(after), id, c);
      var p :| IsPath(OpenStructure(after), p) && |p| >= 2 && p[0] == id && p[|p| - 1] == c;
      forall i | 0 <= i < |p| ensures p[i] in OpenStructure(now) { assert p[i] in OpenStructure(after); }
      forall i | 0 <= i < |p| - 1 ensures p[i + 1] in OpenStructure(now)[p[i]] {
        assert p[i + 1] in OpenStructure(after)[p[i]];
      }
      assert IsPath(OpenStructure(now), p);
      assert Halted(now, c);
    }
  }

  lemma IdleIsComplete(now: Nodes)
    requires Closed(StructureOf(now)) && Acyclic(StructureOf(now)) && forall id :: !Hopeless(now, id)
    requires WithStatus(now, Running) == {}
    requires forall n :: n in now ==> !IsReady(now, n)
    ensures Complete(now)
  {
    forall n | n in now ensures now[n].status != Running { assert n !in WithStatus(now, Running); }
    forall id | id in now ensures now[id].status != Pending {
      if now[id].status == Pending { PendingIsHopeless(now, id); }
    }
  }

  lemma ExtendRun(nodes: Nodes, sofar: seq<Event>, n: string) returns (events: seq<Event>)
    requires Legal(nodes, sofar) && NoFailure(sofar) && IsReady(RunFrom(nodes, sofar), n)
    ensures events == sofar + [Start(n)] + [Finish(n)]
    ensures Legal(nodes, events) && NoFailure(events)
    ensures RunFrom(nodes, events) == Mark(Mark(RunFrom(nodes, sofar), n, Running), n, Done)
  {
    var started := sofar + [Start(n)];
    events := started + [Finish(n)];
    OneMore(nodes, sofar, Start(n));
    OneMore(nodes, started, Finish(n));
  }

  lemma OneMore(nodes: Nodes, sofar: seq<Event>, e: Event)
    requires Legal(nodes, sofar) && Allowed(RunFrom(nodes, sofar), e)
    ensures Legal(nodes, sofar + [e]) && RunFrom(nodes, sofar + [e]) == After(RunFrom(nodes, sofar), e)
  {
    assert (sofar + [e])[..|sofar|] == sofar;
  }

  lemma RunNode(now: Nodes, n: string)
    requires IsReady(now, n) && WithStatus(now, Running) == {}
    ensures Has(Mark(now, n, Running), n, Running)
    ensures var after := Mark(Mark(now, n, Running), n, Done);
            EventsLeft(after) < EventsLeft(now) && WithStatus(after, Running) == {}
  {
    StartSpends(now, n);
    EndSpends(Mark(now, n, Running), Finish(n));
    var after := Mark(Mark(now, n, Running), n, Done);
    forall id ensures id !in WithStatus(after, Running) {
      assert Has(now, id, Running) ==> id in WithStatus(now, Running);
    }
  }

  lemma OwnEndsExtend(sofar: seq<Event>, n: string)
    requires OwnEnds(sofar)
    ensures OwnEnds(sofar + [Start(n)] + [Finish(n)])
  {
    var events := sofar + [Start(n)] + [Finish(n)];
    forall j | 0 <= j < |events| && !events[j].Start? ensures Start(events[j].id) in events[..j] {
      if j < |sofar| {
        assert events[..j] == sofar[..j];
      } else {
        assert events[..j] == sofar + [Start(n)];
      }
    }
  }
}
