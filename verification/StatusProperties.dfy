/** What the status check promises about phases and metrics. */
module StatusProperties {
  import opened ClusterTypes
  import opened StatusCheck

  /** Where an entry of the computed status comes from. */
  lemma Origin(obs: Observation, before: ClusterStatus, after: ClusterStatus, e: NodeStorageState)
    returns (b: NodeStorageState)
    requires Checked(obs, before, after) && e in after.nodes
    ensures e == Demoted(obs, b) && b.node == e.node
    ensures || b in before.nodes
            || (b.node in obs.nodes && b == Fresh(b.node, Observed(obs, b.node)) && !Has(before.nodes, b.node))
  {
    var added: seq<NodeStorageState> :| Additions(obs, before.nodes, added) && CheckedWith(obs, before, added, after);
    var i :| 0 <= i < |after.nodes| && after.nodes[i] == e;
    b := (before.nodes + added)[i];
    assert b in before.nodes || b in added;
  }

  /** A stored entry keeps everything but its phase. */
  lemma Image(obs: Observation, before: ClusterStatus, after: ClusterStatus, b: NodeStorageState)
    requires Checked(obs, before, after) && b in before.nodes
    ensures Demoted(obs, b) in after.nodes
  {
    var added: seq<NodeStorageState> :| Additions(obs, before.nodes, added) && CheckedWith(obs, before, added, after);
    var i :| 0 <= i < |before.nodes| && before.nodes[i] == b;
    assert (before.nodes + added)[i] == b;
    assert after.nodes[i] in after.nodes;
  }

  // ----- the phase of the cluster -----

  /** A monitored node is observed Ready, or a stored entry of another node says so. */
  ghost predicate AnyReady(obs: Observation, entries: seq<NodeStorageState>) {
    || (exists n :: n in obs.nodes && Observed(obs, n) == Ready)
    || (exists e :: e in entries && e.node !in obs.nodes && e.phase == Ready)
  }

  /** The same, and the class demotion of this check leaves it so. */
  ghost predicate LastingReady(obs: Observation, entries: seq<NodeStorageState>) {
    || (exists n :: n in obs.nodes && Observed(obs, n) == Ready)
    || (exists e :: e in entries && e.node !in obs.nodes && e.phase == Ready && HasReadyClass(e))
  }

  lemma ReadyPhase(obs: Observation, entries: seq<NodeStorageState>, added: seq<NodeStorageState>)
    requires Additions(obs, entries, added)
    ensures ClusterReady(obs, entries + added) <==> AnyReady(obs, entries)
  {
    var all := entries + added;
    if ClusterReady(obs, all) {
      var e :| e in all && Undemoted(obs, e) == Ready;
      assert e.node in obs.nodes || e in entries;
    }
    if AnyReady(obs, entries) {
      if exists n :: n in obs.nodes && Observed(obs, n) == Ready {
        var n :| n in obs.nodes && Observed(obs, n) == Ready;
        assert Has(entries, n) || Has(added, n);
        var e :| e in all && e.node == n;
      } else {
        var e :| e in entries && e.node !in obs.nodes && e.phase == Ready;
        assert e in all;
      }
    }
  }

  lemma ClusterReadyExactly(obs: Observation, before: ClusterStatus, after: ClusterStatus)
    requires Checked(obs, before, after)
    ensures after.phase == Ready <==> AnyReady(obs, before.nodes)
  {
    var added: seq<NodeStorageState> :| Additions(obs, before.nodes, added) && CheckedWith(obs, before, added, after);
    ReadyPhase(obs, before.nodes, added);
  }

  /** A node that is left Ready makes the cluster Ready. */
  lemma ReadyNodeReadyCluster(obs: Observation, before: ClusterStatus, after: ClusterStatus, e: NodeStorageState)
    requires Checked(obs, before, after) && e in after.nodes && e.phase == Ready
    ensures after.phase == Ready && HasReadyClass(e)
  {
  }

  // ----- checking again -----

  lemma MonitoredHaveEntries(obs: Observation, before: ClusterStatus, after: ClusterStatus, n: string)
    requires Checked(obs, before, after) && n in obs.nodes
    ensures Has(after.nodes, n)
  {
    var added: seq<NodeStorageState> :| Additions(obs, before.nodes, added) && CheckedWith(obs, before, added, after);
    var all := before.nodes + added;
    assert Has(before.nodes, n) || Has(added, n);
    var e :| e in all && e.node == n;
    var i :| 0 <= i < |all| && all[i] == e;
    assert after.nodes[i] in after.nodes;
  }

  lemma SecondEntries(obs: Observation, before: ClusterStatus, after: ClusterStatus, again: ClusterStatus)
    requires Checked(obs, before, after) && Checked(obs, after, again)
    ensures again.nodes == after.nodes
  {
    var added: seq<NodeStorageState> :| Additions(obs, after.nodes, added) && CheckedWith(obs, after, added, again);
    if added != [] {
      assert added[0] in added;
      MonitoredHaveEntries(obs, before, after, added[0].node);
      assert false;
    }
    var first: seq<NodeStorageState> :| Additions(obs, before.nodes, first) && CheckedWith(obs, before, first, after);
    forall i | 0 <= i < |after.nodes|
      ensures again.nodes[i] == after.nodes[i]
    {
      assert after.nodes[i] == Demoted(obs, (before.nodes + first)[i]);
      assert (after.nodes + added)[i] == after.nodes[i];
    }
  }

  /** An entry of a node that is not monitored, before and after a check. */
  lemma Unobserved(obs: Observation, before: ClusterStatus, after: ClusterStatus, node: string)
    requires Checked(obs, before, after) && node !in obs.nodes
    ensures (exists e :: e in after.nodes && e.node == node && e.phase == Ready)
              <==> exists e :: e in before.nodes && e.node == node && e.phase == Ready && HasReadyClass(e)
  {
    if exists e :: e in after.nodes && e.node == node && e.phase == Ready {
      var e :| e in after.nodes && e.node == node && e.phase == Ready;
      var b := Origin(obs, before, after, e);
    }
    if exists e :: e in before.nodes && e.node == node && e.phase == Ready && HasReadyClass(e) {
      var e :| e in before.nodes && e.node == node && e.phase == Ready && HasReadyClass(e);
      Image(obs, before, after, e);
    }
  }

  lemma ReadyAgain(obs: Observation, before: ClusterStatus, after: ClusterStatus)
    requires Checked(obs, before, after)
    ensures AnyReady(obs, after.nodes) <==> LastingReady(obs, before.nodes)
  {
    if exists e :: e in after.nodes && e.node !in obs.nodes && e.phase == Ready {
      var e :| e in after.nodes && e.node !in obs.nodes && e.phase == Ready;
      Unobserved(obs, before, after, e.node);
    }
    if exists e :: e in before.nodes && e.node !in obs.nodes && e.phase == Ready && HasReadyClass(e) {
      var e :| e in before.nodes && e.node !in obs.nodes && e.phase == Ready && HasReadyClass(e);
      Unobserved(obs, before, after, e.node);
    }
  }

  /** A second check that sees the same changes nothing exactly when the cluster did not owe its phase
      to an entry that no check observes and whose classes demote it. */
  lemma CheckAgainExactly(obs: Observation, before: ClusterStatus, after: ClusterStatus, again: ClusterStatus)
    requires Checked(obs, before, after) && Checked(obs, after, again)
    ensures again == after <==> (AnyReady(obs, before.nodes) ==> LastingReady(obs, before.nodes))
    ensures (forall e :: e in before.nodes ==> e.node in obs.nodes) ==> again == after
  {
    SecondEntries(obs, before, after, again);
    ClusterReadyExactly(obs, before, after);
    ClusterReadyExactly(obs, after, again);
    ReadyAgain(obs, before, after);
    var added: seq<NodeStorageState> :| Additions(obs, before.nodes, added) && CheckedWith(obs, before, added, after);
    var more: seq<NodeStorageState> :| Additions(obs, after.nodes, more) && CheckedWith(obs, after, more, again);
  }

  /** Every entry that says Ready has a ready class. */
  ghost predicate ReadyHasClass(entries: seq<NodeStorageState>) {
    forall e :: e in entries && e.phase == Ready ==> HasReadyClass(e)
  }

  lemma CheckedReadyHasClass(obs: Observation, before: ClusterStatus, after: ClusterStatus)
    requires Checked(obs, before, after)
    ensures ReadyHasClass(after.nodes)
  {
    forall e | e in after.nodes && e.phase == Ready
      ensures HasReadyClass(e)
    {
      ReadyNodeReadyCluster(obs, before, after, e);
    }
  }

  /** A second check that sees the same as the first changes nothing. */
  ghost predicate Steady(status: ClusterStatus) {
    forall obs, after, again :: Checked(obs, status, after) && Checked(obs, after, again) ==> again == after
  }

  lemma ReadyHasClassIsSteady(status: ClusterStatus)
    requires ReadyHasClass(status.nodes)
    ensures Steady(status)
  {
    forall obs, after, again | Checked(obs, status, after) && Checked(obs, after, again)
      ensures again == after
    {
      CheckAgainExactly(obs, status, after, again);
    }
  }

  const NOBODY := Observation([], [], map[])
  const STALE := NodeStorageState("n", Ready, [], [], [])

  /** A status that was given a Ready entry without classes by other hands is not steady: with nobody monitored
      the first check says Ready and the second Failure. */
  lemma EditedStatusIsNotSteady()
    ensures !Steady(ClusterStatus(Ready, [STALE]))
  {
    var demoted := [STALE.(phase := Failure)];
    var before, after := ClusterStatus(Ready, [STALE]), ClusterStatus(Ready, demoted);
    var again := after.(phase := Failure);
    assert Additions(NOBODY, before.nodes, []) && Additions(NOBODY, after.nodes, []);
    assert before.nodes + [] == [STALE] && after.nodes + [] == demoted;
    assert Undemoted(NOBODY, STALE) == Ready && STALE in [STALE];
    assert CheckedWith(NOBODY, before, [], after) && CheckedWith(NOBODY, after, [], again);
    assert Checked(NOBODY, before, after) && Checked(NOBODY, after, again);
  }

  // ----- metrics -----

  predicate OnePodPerNode(pods: seq<Pod>) {
    forall i, j :: 0 <= i < j < |pods| ==> pods[i].node != pods[j].node
  }

  ghost predicate RunsHealthy(pods: seq<Pod>, node: string) {
    exists p :: p in pods && p.node == node && Healthy(p)
  }

  lemma {:induction false} AtMostOnePod(pods: seq<Pod>, node: string)
    requires OnePodPerNode(pods)
    ensures |PodsOn(pods, node)| <= 1
    ensures RunsHealthy(pods, node) <==> PodsOn(pods, node) != [] && Healthy(PodsOn(pods, node)[0])
  {
    PodsOnNode(pods, node);
    if pods == [] {
    } else {
      var front := pods[..|pods| - 1];
      AtMostOnePod(front, node);
      PodsOnNode(front, node);
      assert forall p :: p in front ==> p.node != pods[|pods| - 1].node;
      assert PodsOn(front, node) != [] ==> PodsOn(front, node)[0] in PodsOn(front, node);
    }
    if PodsOn(pods, node) != [] {
      assert PodsOn(pods, node)[0] in PodsOn(pods, node);
    }
  }

  lemma {:induction false} BaseStatus(pods: seq<Pod>, nodes: seq<string>)
    requires OnePodPerNode(pods)
    ensures forall i :: 0 <= i < |BaseMetrics(pods, nodes)| ==>
              var m := BaseMetrics(pods, nodes)[i];
              m.node in nodes && (m.status == 0 <==> RunsHealthy(pods, m.node))
  {
    if nodes == [] {
    } else {
      var node := nodes[|nodes| - 1];
      BaseStatus(pods, nodes[..|nodes| - 1]);
      AtMostOnePod(pods, node);
      PodsOnNode(pods, node);
      assert forall i :: 0 <= i < |NodeMetrics(pods, node)| ==>
          && NodeMetrics(pods, node)[i].node == node
          && (NodeMetrics(pods, node)[i].status == 0 <==> RunsHealthy(pods, node));
    }
  }

  lemma CheckedUnique(obs: Observation, before: ClusterStatus, after: ClusterStatus)
    requires Checked(obs, before, after) && UniqueNodes(before.nodes)
    ensures UniqueNodes(after.nodes)
  {
  }

  lemma UnreadyOne(entries: seq<NodeStorageState>, e: NodeStorageState)
    requires UniqueNodes(entries) && e in entries
    ensures Unready(entries, e.node) <==> !HasReadyClass(e)
  {
  }

  /** The phase of a monitored node. */
  lemma ReadyExactly(obs: Observation, before: ClusterStatus, after: ClusterStatus, e: NodeStorageState)
    requires Checked(obs, before, after) && OnePodPerNode(obs.pods)
    requires e in after.nodes && e.node in obs.nodes
    ensures e.phase == Ready <==>
              RunsHealthy(obs.pods, e.node) && !SeenUnknown(obs, e.node) && HasReadyClass(e)
  {
    var b := Origin(obs, before, after, e);
    AtMostOnePod(obs.pods, e.node);
  }

  /** Pod k is the last one of the node. */
  ghost predicate LastPod(pods: seq<Pod>, k: nat, node: string) {
    k < |pods| && pods[k].node == node && forall j :: k < j < |pods| ==> pods[j].node != node
  }

  lemma {:induction false} LastPodDecides(pods: seq<Pod>, node: string, k: nat)
    requires LastPod(pods, k, node)
    ensures PodsOn(pods, node) != [] && PodsOn(pods, node)[|PodsOn(pods, node)| - 1] == pods[k]
    decreases |pods|
  {
    var n := |pods| - 1;
    if k == n {
    } else {
      assert pods[n].node != node;
      LastPodDecides(pods[..n], node, k);
      assert PodsOn(pods, node) == PodsOn(pods[..n], node) + [];
    }
  }

  ghost predicate SeenAsUnknown(obs: Observation, node: string) {
    node in obs.conditions && exists c :: c in obs.conditions[node] && c.kind == "Ready" && c.status == "Unknown"
  }

  ghost predicate HasUnready(pod: Pod) {
    exists r :: r in pod.containersReady && !r
  }

  /** What a pod says of its node. */
  ghost predicate Says(pod: Pod, phase: Condition) {
    && (phase == Failure <==> HasUnready(pod) || pod.phase == PodFailed)
    && (phase == Ready <==> !HasUnready(pod) && pod.phase == PodRunning)
    && (phase == Pending <==> !HasUnready(pod) && pod.phase == PodPending)
    && (phase == Unknown <==> !HasUnready(pod) && (pod.phase == PodUnknown || pod.phase == PodOther))
  }

  /** What is observed of a node, before its classes are looked at. */
  lemma ObservedExactly(obs: Observation, node: string)
    ensures SeenAsUnknown(obs, node) ==> Observed(obs, node) == Unknown
    ensures !SeenAsUnknown(obs, node) && (forall j :: 0 <= j < |obs.pods| ==> obs.pods[j].node != node) ==>
              Observed(obs, node) == Failure
    ensures !SeenAsUnknown(obs, node) ==>
              forall k: nat :: LastPod(obs.pods, k, node) ==> Says(obs.pods[k], Observed(obs, node))
  {
    PodsOnNode(obs.pods, node);
    UnknownExactly(obs, node);
    forall k: nat | LastPod(obs.pods, k, node)
      ensures Says(obs.pods[k], PodsPhase(obs, node))
    {
      LastPodDecides(obs.pods, node, k);
      PodSays(obs.pods[k]);
    }
  }

  /** Every phase a check can leave a monitored node with, by its classes, its condition and its last pod. */
  lemma PhaseExactly(obs: Observation, before: ClusterStatus, after: ClusterStatus, e: NodeStorageState)
    requires Checked(obs, before, after) && e in after.nodes && e.node in obs.nodes
    ensures (forall c :: c in e.successClasses ==> c.state != ClassReady) ==> e.phase == Failure
    ensures (exists c :: c in e.successClasses && c.state == ClassReady) && SeenAsUnknown(obs, e.node) ==>
              e.phase == Unknown
    ensures (exists c :: c in e.successClasses && c.state == ClassReady) && !SeenAsUnknown(obs, e.node) ==>
              && ((forall j :: 0 <= j < |obs.pods| ==> obs.pods[j].node != e.node) ==> e.phase == Failure)
              && forall k: nat :: LastPod(obs.pods, k, e.node) ==> Says(obs.pods[k], e.phase)
  {
    var b := Origin(obs, before, after, e);
    ObservedExactly(obs, e.node);
  }

  lemma PodSays(pod: Pod)
    ensures Says(pod, PodCondition(pod))
  {
  }

  lemma UnknownExactly(obs: Observation, node: string)
    ensures SeenUnknown(obs, node) <==> SeenAsUnknown(obs, node)
  {
    if SeenAsUnknown(obs, node) {
      var c :| c in obs.conditions[node] && c.kind == "Ready" && c.status == "Unknown";
      assert c == NodeCondition(NODE_READY, UNKNOWN);
    }
  }

  /** An entry of a node that is not monitored keeps its phase when it has a ready class, and is a Failure
      otherwise. */
  lemma UnmonitoredExactly(obs: Observation, before: ClusterStatus, after: ClusterStatus, i: nat)
    requires Checked(obs, before, after) && i < |before.nodes| && before.nodes[i].node !in obs.nodes
    ensures i < |after.nodes|
    ensures after.nodes[i].phase ==
              if exists c :: c in before.nodes[i].successClasses && c.state == ClassReady then before.nodes[i].phase
              else Failure
  {
    var added: seq<NodeStorageState> :| Additions(obs, before.nodes, added) && CheckedWith(obs, before, added, after);
    assert (before.nodes + added)[i] == before.nodes[i];
  }

  /** A stored entry keeps everything but its phase; a monitored node without one gets an empty one, which has no
      ready class and so is a Failure. */
  lemma EntriesExactly(obs: Observation, before: ClusterStatus, after: ClusterStatus)
    requires Checked(obs, before, after)
    ensures |after.nodes| >= |before.nodes|
    ensures forall i :: 0 <= i < |before.nodes| ==>
              && after.nodes[i].node == before.nodes[i].node && after.nodes[i].loops == before.nodes[i].loops
              && after.nodes[i].failClasses == before.nodes[i].failClasses
              && after.nodes[i].successClasses == before.nodes[i].successClasses
    ensures forall i :: |before.nodes| <= i < |after.nodes| ==>
              && after.nodes[i] == NodeStorageState(after.nodes[i].node, Failure, [], [], [])
              && after.nodes[i].node in obs.nodes && !Has(before.nodes, after.nodes[i].node)
  {
    var added: seq<NodeStorageState> :| Additions(obs, before.nodes, added) && CheckedWith(obs, before, added, after);
    forall i | |before.nodes| <= i < |after.nodes|
      ensures (before.nodes + added)[i] in added
    {
    }
  }

  /** The metrics before demotion: one for each pod of each monitored node, 0 for a healthy pod only, and a 1
      for a node without a pod. */
  lemma {:induction false} MetricsExactly(pods: seq<Pod>, nodes: seq<string>)
    ensures forall m :: m in BaseMetrics(pods, nodes) <==>
              m.node in nodes && (ForPod(pods, m) || (m.status == 1 && forall p :: p in pods ==> p.node != m.node))
  {
    if nodes == [] {
    } else {
      var front, node := nodes[..|nodes| - 1], nodes[|nodes| - 1];
      MetricsExactly(pods, front);
      NodeMetricsExactly(pods, node);
      assert forall n :: n in nodes <==> n in front || n == node;
    }
  }

  /** The metric is that of some pod. */
  ghost predicate ForPod(pods: seq<Pod>, m: NodeMetric) {
    exists p :: p in pods && p.node == m.node
      && m.status == if p.phase == PodRunning && !HasUnready(p) then 0 else 1
  }

  lemma NodeMetricsExactly(pods: seq<Pod>, node: string)
    ensures forall m :: m in NodeMetrics(pods, node) <==>
              m.node == node && (ForPod(pods, m) || (m.status == 1 && forall p :: p in pods ==> p.node != node))
  {
    var on, ms := PodsOn(pods, node), NodeMetrics(pods, node);
    PodsOnNode(pods, node);
    forall m | m in ms
      ensures m.node == node && (ForPod(pods, m) || (m.status == 1 && forall p :: p in pods ==> p.node != node))
    {
      var i :| 0 <= i < |ms| && ms[i] == m;
      if on != [] {
        assert on[i] in on && m == PodMetric(on[i]);
      }
    }
    forall m: NodeMetric | m.node == node
        && (ForPod(pods, m) || (m.status == 1 && forall p :: p in pods ==> p.node != node))
      ensures m in ms
    {
      if ForPod(pods, m) {
        var p :| p in pods && p.node == m.node && m.status == if p.phase == PodRunning && !HasUnready(p) then 0 else 1;
        assert p in on;
        var i :| 0 <= i < |on| && on[i] == p;
        assert ms[i] == PodMetric(p) == m;
      } else {
        assert on == [] && m == NodeMetric(node, 1) && ms[0] == m;
      }
    }
  }

  /** The metric of a monitored node is 0 exactly when its final phase is Ready, which is exactly when
      its pod runs with all containers ready, its condition is not seen as Unknown, and some success
      class is ready. */
  lemma MetricMatchesPhase(obs: Observation, before: ClusterStatus, after: ClusterStatus, ms: seq<NodeMetric>,
                           i: nat, e: NodeStorageState)
    requires Checked(obs, before, after) && Raised(obs, after.nodes, BaseMetrics(obs.pods, obs.nodes), ms)
    requires OnePodPerNode(obs.pods) && UniqueNodes(before.nodes)
    requires i < |ms| && e in after.nodes && e.node == ms[i].node
    ensures ms[i].status == 0 <==> e.phase == Ready
    ensures ms[i].status == 0 <==>
              RunsHealthy(obs.pods, e.node) && !SeenUnknown(obs, e.node) && HasReadyClass(e)
  {
    BaseStatus(obs.pods, obs.nodes);
    CheckedUnique(obs, before, after);
    UnreadyOne(after.nodes, e);
    assert BaseMetrics(obs.pods, obs.nodes)[i].node == e.node;
    ReadyExactly(obs, before, after, e);
  }

  /** Every monitored node has such a metric and such an entry. */
  lemma MonitoredHaveMetrics(pods: seq<Pod>, nodes: seq<string>, n: string)
    requires n in nodes
    ensures exists i :: 0 <= i < |BaseMetrics(pods, nodes)| && BaseMetrics(pods, nodes)[i].node == n
  {
    MetricsExactly(pods, nodes);
    var status := 1;
    if exists p :: p in pods && p.node == n {
      var p :| p in pods && p.node == n;
      status := if p.phase == PodRunning && !HasUnready(p) then 0 else 1;
      assert ForPod(pods, NodeMetric(n, status));
    }
    assert NodeMetric(n, status) in BaseMetrics(pods, nodes);
  }
}
