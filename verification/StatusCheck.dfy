/** The periodic status check of the operator (checkStatus): from pods, nodes and reported classes to
    phases and metrics. */
module StatusCheck {
  import opened ClusterTypes

  datatype PodPhase = PodRunning | PodUnknown | PodFailed | PodPending | PodOther

  datatype Pod = Pod(node: string, phase: PodPhase, containersReady: seq<bool>)

  datatype NodeCondition = NodeCondition(kind: string, status: string)

  const NODE_READY := "Ready"
  const UNKNOWN := "Unknown"

  /** What one check sees: the monitored nodes, the pods, and the conditions of the nodes that could
      be read. */
  datatype Observation = Observation(
    nodes: seq<string>, pods: seq<Pod>, conditions: map<string, seq<NodeCondition>>)

  datatype ClusterStatus = ClusterStatus(phase: Condition, nodes: seq<NodeStorageState>)

  datatype NodeMetric = NodeMetric(node: string, status: nat)

  datatype Metrics = Metrics(clusterStatus: nat, nodes: seq<NodeMetric>)

  // ----- specification -----

  predicate Healthy(pod: Pod) {
    pod.phase == PodRunning && forall r :: r in pod.containersReady ==> r
  }

  function PodCondition(pod: Pod): Condition {
    if exists r :: r in pod.containersReady && !r then Failure
    else
      match pod.phase
      case PodRunning => Ready
      case PodFailed => Failure
      case PodPending => Pending
      case _ => Unknown
  }

  function PodsOn(pods: seq<Pod>, node: string): seq<Pod> {
    if pods == [] then []
    else PodsOn(pods[..|pods| - 1], node) + if pods[|pods| - 1].node == node then [pods[|pods| - 1]] else []
  }

  predicate SeenUnknown(obs: Observation, node: string) {
    node in obs.conditions && NodeCondition(NODE_READY, UNKNOWN) in obs.conditions[node]
  }

  /** By its pods; the last one counts. */
  function PodsPhase(obs: Observation, node: string): Condition {
    var on := PodsOn(obs.pods, node);
    if on == [] then Failure else PodCondition(on[|on| - 1])
  }

  function Observed(obs: Observation, node: string): Condition {
    if SeenUnknown(obs, node) then Unknown else PodsPhase(obs, node)
  }

  predicate HasReadyClass(e: NodeStorageState) {
    exists c :: c in e.successClasses && c.state == ClassReady
  }

  /** The phase of a stored entry before its classes are looked at. */
  function Undemoted(obs: Observation, e: NodeStorageState): Condition {
    if e.node in obs.nodes then Observed(obs, e.node) else e.phase
  }

  function Demoted(obs: Observation, e: NodeStorageState): NodeStorageState {
    e.(phase := if HasReadyClass(e) then Undemoted(obs, e) else Failure)
  }

  ghost predicate Has(entries: seq<NodeStorageState>, node: string) {
    exists e :: e in entries && e.node == node
  }

  ghost predicate UniqueNodes(entries: seq<NodeStorageState>) {
    forall i, j :: 0 <= i < j < |entries| ==> entries[i].node != entries[j].node
  }

  function Fresh(node: string, phase: Condition): NodeStorageState {
    NodeStorageState(node, phase, [], [], [])
  }

  /** One new entry for each monitored node that has none, in any order. */
  ghost predicate Additions(obs: Observation, entries: seq<NodeStorageState>, added: seq<NodeStorageState>) {
    && (forall e :: e in added ==>
          e == Fresh(e.node, Observed(obs, e.node)) && e.node in obs.nodes && !Has(entries, e.node))
    && UniqueNodes(added)
    && (forall n :: n in obs.nodes && !Has(entries, n) ==> Has(added, n))
  }

  /** Some entry's phase, before its classes are looked at, is Ready. */
  ghost predicate ClusterReady(obs: Observation, entries: seq<NodeStorageState>) {
    exists e :: e in entries && Undemoted(obs, e) == Ready
  }

  /** The status that a check computes: stored entries and additions keep everything but the phase. */
  ghost predicate Checked(obs: Observation, before: ClusterStatus, after: ClusterStatus) {
    exists added :: Additions(obs, before.nodes, added) && CheckedWith(obs, before, added, after)
  }

  ghost predicate CheckedWith(obs: Observation, before: ClusterStatus, added: seq<NodeStorageState>,
                              after: ClusterStatus)
  {
    && |after.nodes| == |before.nodes + added|
    && (forall i :: 0 <= i < |after.nodes| ==> after.nodes[i] == Demoted(obs, (before.nodes + added)[i]))
    && after.phase == if ClusterReady(obs, before.nodes + added) then Ready else Failure
  }

  // ----- metrics -----

  function PodMetric(pod: Pod): NodeMetric {
    NodeMetric(pod.node, if Healthy(pod) then 0 else 1)
  }

  function PodMetrics(pods: seq<Pod>): seq<NodeMetric> {
    seq(|pods|, i requires 0 <= i < |pods| => PodMetric(pods[i]))
  }

  function NodeMetrics(pods: seq<Pod>, node: string): seq<NodeMetric> {
    if PodsOn(pods, node) == [] then [NodeMetric(node, 1)] else PodMetrics(PodsOn(pods, node))
  }

  /** One metric for each pod of each monitored node, or one for the node when it has none. */
  function BaseMetrics(pods: seq<Pod>, nodes: seq<string>): seq<NodeMetric> {
    if nodes == [] then []
    else BaseMetrics(pods, nodes[..|nodes| - 1]) + NodeMetrics(pods, nodes[|nodes| - 1])
  }

  ghost predicate Unready(entries: seq<NodeStorageState>, node: string) {
    exists e :: e in entries && e.node == node && !HasReadyClass(e)
  }

  /** A metric is raised when the node is seen as Unknown or some entry of it has no ready class. */
  ghost predicate Raised(obs: Observation, entries: seq<NodeStorageState>, base: seq<NodeMetric>, ms: seq<NodeMetric>) {
    && |ms| == |base|
    && forall i :: 0 <= i < |ms| ==>
         ms[i] == base[i].(status :=
           if SeenUnknown(obs, base[i].node) || Unready(entries, base[i].node) then 1 else base[i].status)
  }

  // ----- the loops -----

  type Phases = map<string, Condition>

  method ScanPod(pod: Pod) returns (phase: Condition, m: NodeMetric)
    ensures phase == PodCondition(pod) && m == PodMetric(pod)
  {
    match pod.phase {
      case PodRunning => phase, m := Ready, NodeMetric(pod.node, 0);
      case PodUnknown => phase, m := Unknown, NodeMetric(pod.node, 1);
      case PodFailed => phase, m := Failure, NodeMetric(pod.node, 1);
      case PodPending => phase, m := Pending, NodeMetric(pod.node, 1);
      case PodOther => phase, m := Unknown, NodeMetric(pod.node, 1);
    }
    for i := 0 to |pod.containersReady|
      invariant forall j :: 0 <= j < i ==> pod.containersReady[j]
    {
      if !pod.containersReady[i] {
        assert pod.containersReady[i] in pod.containersReady;
        return Failure, m.(status := 1);
      }
    }
  }

  /** What these pods of one node, in order, come to. */
  ghost predicate SeenOn(on: seq<Pod>, found: bool, phase: Condition, ms: seq<NodeMetric>) {
    && found == (on != []) && ms == PodMetrics(on)
    && (on != [] ==> phase == PodCondition(on[|on| - 1]))
  }

  lemma NextPod(pods: seq<Pod>, i: nat, node: string, found: bool, phase: Condition, ms: seq<NodeMetric>)
    requires i < |pods| && SeenOn(PodsOn(pods[..i], node), found, phase, ms)
    ensures SeenOn(PodsOn(pods[..i + 1], node), found || pods[i].node == node,
              if pods[i].node == node then PodCondition(pods[i]) else phase,
              if pods[i].node == node then ms + [PodMetric(pods[i])] else ms)
  {
    var on := PodsOn(pods[..i], node);
    assert pods[..i + 1][..i] == pods[..i];
    if pods[i].node == node {
      assert PodsOn(pods[..i + 1], node) == on + [pods[i]];
    } else {
      assert PodsOn(pods[..i + 1], node) == on + [] == on;
    }
  }

  method ObserveNode(obs: Observation, node: string) returns (phase: Condition, ms: seq<NodeMetric>)
    ensures phase == PodsPhase(obs, node) && ms == NodeMetrics(obs.pods, node)
  {
    var found := false;
    phase, ms := Failure, [];
    for i := 0 to |obs.pods|
      invariant SeenOn(PodsOn(obs.pods[..i], node), found, phase, ms)
    {
      NextPod(obs.pods, i, node, found, phase, ms);
      if obs.pods[i].node != node {
        continue;
      }
      found := true;
      var m;
      phase, m := ScanPod(obs.pods[i]);
      ms := ms + [m];
    }
    assert obs.pods[..|obs.pods|] == obs.pods;
    if !found {
      phase, ms := Failure, [NodeMetric(node, 1)];
    }
  }

  /** The phases of these nodes by their pods. */
  ghost predicate PhasesOf(obs: Observation, nodes: seq<string>, phases: Phases) {
    && (forall n :: n in phases <==> n in nodes)
    && (forall n :: n in phases ==> phases[n] == PodsPhase(obs, n))
  }

  method ObserveNodes(obs: Observation) returns (phases: Phases, ms: seq<NodeMetric>)
    ensures PhasesOf(obs, obs.nodes, phases)
    ensures ms == BaseMetrics(obs.pods, obs.nodes)
  {
    phases, ms := map[], [];
    for i := 0 to |obs.nodes|
      invariant PhasesOf(obs, obs.nodes[..i], phases)
      invariant ms == BaseMetrics(obs.pods, obs.nodes[..i])
    {
      var phase, more := ObserveNode(obs, obs.nodes[i]);
      NextPhase(obs, i, phases);
      phases := phases[obs.nodes[i] := phase];
      ms := ms + more;
    }
    assert obs.nodes[..|obs.nodes|] == obs.nodes;
  }

  lemma NextPhase(obs: Observation, i: nat, phases: Phases)
    requires i < |obs.nodes| && PhasesOf(obs, obs.nodes[..i], phases)
    ensures PhasesOf(obs, obs.nodes[..i + 1], phases[obs.nodes[i] := PodsPhase(obs, obs.nodes[i])])
    ensures BaseMetrics(obs.pods, obs.nodes[..i + 1])
              == BaseMetrics(obs.pods, obs.nodes[..i]) + NodeMetrics(obs.pods, obs.nodes[i])
  {
    assert obs.nodes[..i + 1][..i] == obs.nodes[..i];
    assert obs.nodes[..i + 1] == obs.nodes[..i] + [obs.nodes[i]];
  }

  method RaiseNode(before: seq<NodeMetric>, node: string) returns (ms: seq<NodeMetric>)
    ensures |ms| == |before|
    ensures forall i :: 0 <= i < |ms| ==> ms[i] == if before[i].node == node then before[i].(status := 1) else before[i]
  {
    ms := before;
    for i := 0 to |before|
      invariant |ms| == |before|
      invariant forall j :: 0 <= j < i ==>
                  ms[j] == if before[j].node == node then before[j].(status := 1) else before[j]
      invariant forall j :: i <= j < |ms| ==> ms[j] == before[j]
    {
      if ms[i].node == node {
        ms := ms[i := ms[i].(status := 1)];
      }
    }
  }

  method SeesUnknown(conditions: seq<NodeCondition>) returns (seen: bool)
    ensures seen == (NodeCondition(NODE_READY, UNKNOWN) in conditions)
  {
    seen := false;
    for i := 0 to |conditions|
      invariant seen == (NodeCondition(NODE_READY, UNKNOWN) in conditions[..i])
    {
      if conditions[i].kind == NODE_READY && conditions[i].status == UNKNOWN {
        seen := true;
      }
    }
    assert conditions[..|conditions|] == conditions;
  }

  method ApplyConditions(obs: Observation, before: Phases, base: seq<NodeMetric>)
    returns (phases: Phases, ms: seq<NodeMetric>)
    requires forall i :: 0 <= i < |base| ==> base[i].node in before
    ensures phases.Keys == before.Keys && |ms| == |base|
    ensures forall n :: n in before ==> phases[n] == if SeenUnknown(obs, n) then Unknown else before[n]
    ensures forall i :: 0 <= i < |ms| ==>
              ms[i] == if SeenUnknown(obs, base[i].node) then base[i].(status := 1) else base[i]
  {
    phases, ms := before, base;
    var rest := before.Keys;
    while rest != {}
      invariant rest <= before.Keys && phases.Keys == before.Keys && |ms| == |base|
      invariant forall n :: n in before ==>
                  phases[n] == if n !in rest && SeenUnknown(obs, n) then Unknown else before[n]
      invariant forall i :: 0 <= i < |ms| ==>
                  ms[i] == if base[i].node !in rest && SeenUnknown(obs, base[i].node) then base[i].(status := 1)
                           else base[i]
    {
      var node :| node in rest;
      if node in obs.conditions {
        var seen := SeesUnknown(obs.conditions[node]);
        if seen {
          phases := phases[node := Unknown];
          ms := RaiseNode(ms, node);
        }
      }
      rest := rest - {node};
    }
  }

  /** What the merge makes of a stored entry, with some of the phases still to come. */
  function Phased(e: NodeStorageState, phases: Phases, rest: set<string>): NodeStorageState {
    if e.node in phases && e.node !in rest then e.(phase := phases[e.node]) else e
  }

  method SetPhase(before: seq<NodeStorageState>, node: string, phase: Condition)
    returns (entries: seq<NodeStorageState>, found: bool)
    ensures |entries| == |before| && found == Has(before, node)
    ensures forall i :: 0 <= i < |before| ==>
              entries[i] == if before[i].node == node then before[i].(phase := phase) else before[i]
  {
    entries, found := before, false;
    for i := 0 to |before|
      invariant |entries| == |before| && found == exists j :: 0 <= j < i && before[j].node == node
      invariant forall j :: 0 <= j < i ==>
                  entries[j] == if before[j].node == node then before[j].(phase := phase) else before[j]
      invariant forall j :: i <= j < |before| ==> entries[j] == before[j]
    {
      if entries[i].node == node {
        found := true;
        entries := entries[i := entries[i].(phase := phase)];
      }
    }
    if found {
      var j :| 0 <= j < |before| && before[j].node == node;
      assert before[j] in before;
    }
  }

  /** Entries for monitored nodes that had none. */
  ghost predicate Appended(entries: seq<NodeStorageState>, phases: Phases, rest: set<string>,
                           added: seq<NodeStorageState>)
  {
    && (forall e :: e in added ==>
          e.node in phases && e.node !in rest && e == Fresh(e.node, phases[e.node]) && !Has(entries, e.node))
    && UniqueNodes(added)
    && (forall n :: n in phases && n !in rest && !Has(entries, n) ==> Has(added, n))
  }

  lemma AppendOne(entries: seq<NodeStorageState>, phases: Phases, rest: set<string>,
                  added: seq<NodeStorageState>, node: string)
    requires Appended(entries, phases, rest, added) && node in phases && node in rest
    ensures !Has(entries, node) ==> Appended(entries, phases, rest - {node}, added + [Fresh(node, phases[node])])
    ensures Has(entries, node) ==> Appended(entries, phases, rest - {node}, added)
    ensures !Has(added, node)
  {
  }

  /** The loop over the map of phases: known nodes get their phase, others an entry. */
  method MergePhases(before: seq<NodeStorageState>, phases: Phases)
    returns (entries: seq<NodeStorageState>, ghost added: seq<NodeStorageState>)
    ensures Appended(before, phases, {}, added) && |entries| == |before| + |added|
    ensures forall i :: 0 <= i < |before| ==> entries[i] == Phased(before[i], phases, {})
    ensures entries[|before|..] == added
  {
    entries, added := before, [];
    var rest := phases.Keys;
    while rest != {}
      invariant rest <= phases.Keys
      invariant Appended(before, phases, rest, added) && |entries| == |before| + |added|
      invariant forall i :: 0 <= i < |before| ==> entries[i] == Phased(before[i], phases, rest)
      invariant entries[|before|..] == added
    {
      var node :| node in rest;
      entries, added := MergeNode(before, entries, phases, rest, added, node);
      rest := rest - {node};
    }
  }

  method MergeNode(before: seq<NodeStorageState>, now: seq<NodeStorageState>, phases: Phases, ghost rest: set<string>,
                   ghost had: seq<NodeStorageState>, node: string)
    returns (entries: seq<NodeStorageState>, ghost added: seq<NodeStorageState>)
    requires node in phases && node in rest
    requires Appended(before, phases, rest, had) && |now| == |before| + |had|
    requires forall i :: 0 <= i < |before| ==> now[i] == Phased(before[i], phases, rest)
    requires now[|before|..] == had
    ensures Appended(before, phases, rest - {node}, added) && |entries| == |before| + |added|
    ensures forall i :: 0 <= i < |before| ==> entries[i] == Phased(before[i], phases, rest - {node})
    ensures entries[|before|..] == added
  {
    AppendOne(before, phases, rest, had, node);
    var found;
    entries, found := SetPhase(now, node, phases[node]);
    HasWhole(before, now, had, phases, rest, node);
    added := had;
    forall i | 0 <= i < |had|
      ensures entries[|before| + i] == had[i]
    {
      assert had[i] in had && now[|before| + i] == had[i];
    }
    if !found {
      added := had + [Fresh(node, phases[node])];
      entries := entries + [Fresh(node, phases[node])];
    }
  }

  lemma HasWhole(before: seq<NodeStorageState>, now: seq<NodeStorageState>, added: seq<NodeStorageState>,
                 phases: Phases, rest: set<string>, node: string)
    requires |now| == |before| + |added| && now[|before|..] == added && !Has(added, node)
    requires forall i :: 0 <= i < |before| ==> now[i] == Phased(before[i], phases, rest)
    ensures Has(now, node) <==> Has(before, node)
  {
  }

  method SomeReadyClass(e: NodeStorageState) returns (ready: bool)
    ensures ready == HasReadyClass(e)
  {
    ready := false;
    for i := 0 to |e.successClasses|
      invariant ready == exists c :: c in e.successClasses[..i] && c.state == ClassReady
    {
      if e.successClasses[i].state == ClassReady {
        assert e.successClasses[i] in e.successClasses[..i + 1];
        ready := true;
      }
    }
    assert e.successClasses[..|e.successClasses|] == e.successClasses;
  }

  /** What class demotion makes of an entry. */
  function Dropped(e: NodeStorageState): NodeStorageState {
    if HasReadyClass(e) then e else e.(phase := Failure)
  }

  /** Some entry has no ready class, among those before the given index. */
  ghost predicate UnreadyBefore(entries: seq<NodeStorageState>, n: nat, node: string)
    requires n <= |entries|
  {
    exists j :: 0 <= j < n && entries[j].node == node && !HasReadyClass(entries[j])
  }

  method RaiseUnless(ready: bool, before: seq<NodeMetric>, node: string) returns (ms: seq<NodeMetric>)
    ensures |ms| == |before|
    ensures forall i :: 0 <= i < |ms| ==>
              ms[i] == if before[i].node == node && !ready then before[i].(status := 1) else before[i]
  {
    ms := before;
    if !ready {
      ms := RaiseNode(before, node);
    }
  }

  /** The last loop. The cluster counts as ready by the phase an entry had when the loop came to it,
      before its classes could demote it. */
  method DemoteClasses(before: seq<NodeStorageState>, base: seq<NodeMetric>)
    returns (entries: seq<NodeStorageState>, ms: seq<NodeMetric>, clusterReady: bool)
    ensures |entries| == |before| && forall i :: 0 <= i < |before| ==> entries[i] == Dropped(before[i])
    ensures |ms| == |base|
    ensures forall i :: 0 <= i < |ms| ==>
              ms[i] == if UnreadyBefore(before, |before|, base[i].node) then base[i].(status := 1) else base[i]
    ensures clusterReady == exists i :: 0 <= i < |before| && before[i].phase == Ready
  {
    entries, ms, clusterReady := before, base, false;
    for index := 0 to |before|
      invariant |entries| == |before|
      invariant forall i :: 0 <= i < index ==> entries[i] == Dropped(before[i])
      invariant forall i :: index <= i < |before| ==> entries[i] == before[i]
      invariant |ms| == |base|
      invariant forall i :: 0 <= i < |ms| ==>
                  ms[i] == if UnreadyBefore(before, index, base[i].node) then base[i].(status := 1) else base[i]
      invariant clusterReady == exists i :: 0 <= i < index && before[i].phase == Ready
    {
      var n := entries[index];
      var nodeReady := SomeReadyClass(n);
      if !nodeReady {
        entries := entries[index := n.(phase := Failure)];
      }
      ms := RaiseUnless(nodeReady, ms, n.node);
      forall node
        ensures UnreadyBefore(before, index + 1, node) <==>
                UnreadyBefore(before, index, node) || (before[index].node == node && !HasReadyClass(before[index]))
      {
        if UnreadyBefore(before, index, node) {
          var j :| 0 <= j < index && before[j].node == node && !HasReadyClass(before[j]);
          assert 0 <= j < index + 1;
        }
      }
      if n.phase == Ready {
        clusterReady := true;
      }
    }
  }

  /** A status check: the computed status, the metrics, and whether they are written and sent. */
  method CheckStatus(obs: Observation, before: ClusterStatus)
    returns (after: ClusterStatus, metrics: Metrics, written: bool)
    ensures Checked(obs, before, after)
    ensures Raised(obs, after.nodes, BaseMetrics(obs.pods, obs.nodes), metrics.nodes)
    ensures metrics.clusterStatus == if after.phase == Ready then 0 else 1
    ensures written <==> after != before
  {
    var phases, ms := ObserveNodes(obs);
    ghost var base := ms;
    BaseNodes(obs.pods, obs.nodes);
    phases, ms := ApplyConditions(obs, phases, ms);
    var entries;
    ghost var added;
    entries, added := MergePhases(before.nodes, phases);
    MergedPhases(obs, before.nodes, phases, entries, added);
    ghost var merged := entries;
    var ready;
    entries, ms, ready := DemoteClasses(entries, ms);
    after := ClusterStatus(if ready then Ready else Failure, entries);
    CheckedFromLoops(obs, before, merged, added, after);
    RaisedFromLoops(obs, merged, entries, base, ms);
    metrics := Metrics(if ready then 0 else 1, ms);
    written := before != after;
  }

  lemma {:induction false} BaseNodes(pods: seq<Pod>, nodes: seq<string>)
    ensures forall i :: 0 <= i < |BaseMetrics(pods, nodes)| ==> BaseMetrics(pods, nodes)[i].node in nodes
  {
    if nodes == [] {
    } else {
      BaseNodes(pods, nodes[..|nodes| - 1]);
      PodsOnNode(pods, nodes[|nodes| - 1]);
    }
  }

  lemma {:induction false} PodsOnNode(pods: seq<Pod>, node: string)
    ensures forall p :: p in PodsOn(pods, node) <==> p in pods && p.node == node
    ensures PodsOn(pods, node) == [] <==> forall p :: p in pods ==> p.node != node
  {
    if pods == [] {
    } else {
      PodsOnNode(pods[..|pods| - 1], node);
      assert pods == pods[..|pods| - 1] + [pods[|pods| - 1]];
    }
  }

  /** After the merge every entry has its phase before demotion. */
  lemma MergedPhases(obs: Observation, before: seq<NodeStorageState>, phases: Phases,
                     entries: seq<NodeStorageState>, added: seq<NodeStorageState>)
    requires forall n :: n in phases <==> n in obs.nodes
    requires forall n :: n in phases ==> phases[n] == Observed(obs, n)
    requires Appended(before, phases, {}, added) && |entries| == |before| + |added|
    requires forall i :: 0 <= i < |before| ==> entries[i] == Phased(before[i], phases, {})
    requires entries[|before|..] == added
    ensures Additions(obs, before, added)
    ensures forall i :: 0 <= i < |entries| ==>
              entries[i] == (before + added)[i].(phase := Undemoted(obs, (before + added)[i]))
  {
  }

  lemma CheckedFromLoops(obs: Observation, before: ClusterStatus, merged: seq<NodeStorageState>,
                         added: seq<NodeStorageState>, after: ClusterStatus)
    requires Additions(obs, before.nodes, added) && |merged| == |before.nodes + added| == |after.nodes|
    requires forall i :: 0 <= i < |merged| ==>
               merged[i] == (before.nodes + added)[i].(phase := Undemoted(obs, (before.nodes + added)[i]))
    requires forall i :: 0 <= i < |merged| ==> after.nodes[i] == Dropped(merged[i])
    requires after.phase == if exists i :: 0 <= i < |merged| && merged[i].phase == Ready then Ready else Failure
    ensures Checked(obs, before, after)
  {
  }

  lemma RaisedFromLoops(obs: Observation, merged: seq<NodeStorageState>, entries: seq<NodeStorageState>,
                        base: seq<NodeMetric>, ms: seq<NodeMetric>)
    requires |entries| == |merged| && forall i :: 0 <= i < |merged| ==> entries[i] == Dropped(merged[i])
    requires |ms| == |base|
    requires forall i :: 0 <= i < |ms| ==>
               var seen := if SeenUnknown(obs, base[i].node) then base[i].(status := 1) else base[i];
               ms[i] == if UnreadyBefore(merged, |merged|, base[i].node) then seen.(status := 1) else seen
    ensures Raised(obs, entries, base, ms)
  {
  }
}
