/** The cluster status and its two writers, which share statusLock: the ConfigMap handlers, and the
    periodic status check. Each handler call and each check is one atomic step on the stored status. */
module ClusterProtocol {
  import opened ClusterTypes
  import opened StatusCheck
  import opened StatusProperties

  type Decoder = string -> Option<NodeStorageState>

  // ----- UpdateStatus -----

  /** A node's entry is replaced, or added at the end when there is none. */
  function ReplaceOrAppend(entries: seq<NodeStorageState>, state: NodeStorageState): seq<NodeStorageState> {
    if entries == [] then [state]
    else if entries[0].node == state.node then [state] + entries[1..]
    else [entries[0]] + ReplaceOrAppend(entries[1..], state)
  }

  /** The entry of the node is replaced where it stands; a node without one comes last. */
  lemma {:induction false} ReplacedExactly(entries: seq<NodeStorageState>, state: NodeStorageState, k: nat)
    requires k <= |entries| && forall j :: 0 <= j < k ==> entries[j].node != state.node
    requires k < |entries| ==> entries[k].node == state.node
    ensures ReplaceOrAppend(entries, state) == if k < |entries| then entries[k := state] else entries + [state]
    decreases k
  {
    if k == 0 {
    } else {
      var rest := entries[1..];
      assert forall j :: 0 <= j < k - 1 ==> rest[j] == entries[j + 1];
      ReplacedExactly(rest, state, k - 1);
      assert entries == [entries[0]] + rest;
    }
  }

  lemma {:induction false} ReplacedMembers(entries: seq<NodeStorageState>, state: NodeStorageState)
    requires UniqueNodes(entries)
    ensures forall e :: e in ReplaceOrAppend(entries, state) <==> e == state || (e in entries && e.node != state.node)
    ensures UniqueNodes(ReplaceOrAppend(entries, state))
  {
    if entries == [] {
    } else {
      var rest := entries[1..];
      assert forall e :: e in entries <==> e == entries[0] || e in rest;
      assert forall e :: e in rest ==> e.node != entries[0].node;
      if entries[0].node != state.node {
        ReplacedMembers(rest, state);
        var tail := ReplaceOrAppend(rest, state);
        assert forall i :: 0 <= i < |tail| ==> tail[i] in tail;
      } else {
        assert forall e :: e in [state] + rest <==> e == state || e in rest;
        assert forall i :: 0 <= i < |rest| ==> rest[i] in rest;
      }
    }
  }

  lemma ReplaceStep(entries: seq<NodeStorageState>, i: nat, state: NodeStorageState)
    requires i < |entries|
    ensures entries[..i] + ReplaceOrAppend(entries[i..], state)
              == if entries[i].node == state.node then entries[i := state]
                 else entries[..i + 1] + ReplaceOrAppend(entries[i + 1..], state)
  {
    assert entries[i..][1..] == entries[i + 1..];
  }

  // ----- what was delivered -----

  datatype Event =
    | Add(node: string, data: string)
    | Update(node: string, data: string)
    | Check(obs: Observation)

  type Delivered = map<string, NodeStorageState>

  /** The last decodable report of each node. */
  function Deliver(decode: Decoder, delivered: Delivered, e: Event): Delivered {
    if e.Check? || decode(e.data).None? then delivered else delivered[e.node := decode(e.data).value]
  }

  function DeliverAll(decode: Decoder, delivered: Delivered, events: seq<Event>): Delivered {
    if events == [] then delivered
    else Deliver(decode, DeliverAll(decode, delivered, events[..|events| - 1]), events[|events| - 1])
  }

  /** Each report is about the node whose ConfigMap carries it. */
  ghost predicate OwnReport(decode: Decoder, node: string, data: string) {
    decode(data).Some? ==> decode(data).value.node == node
  }

  /** One entry per node, and each node that delivered a report has that report, up to its phase. */
  ghost predicate UpToDate(entries: seq<NodeStorageState>, delivered: Delivered) {
    && UniqueNodes(entries)
    && (forall n :: n in delivered ==> delivered[n].node == n && Has(entries, n))
    && (forall e :: e in entries && e.node in delivered ==> e == delivered[e.node].(phase := e.phase))
  }

  lemma UpdateKeepsReports(entries: seq<NodeStorageState>, delivered: Delivered, state: NodeStorageState)
    requires UpToDate(entries, delivered)
    ensures UpToDate(ReplaceOrAppend(entries, state), delivered[state.node := state])
  {
    ReplacedMembers(entries, state);
    var after := ReplaceOrAppend(entries, state);
    assert state in after;
    forall n | n in delivered && n != state.node
      ensures Has(after, n)
    {
      var e :| e in entries && e.node == n;
      assert e in after;
    }
  }

  lemma CheckKeepsReports(obs: Observation, before: ClusterStatus, after: ClusterStatus, delivered: Delivered)
    requires UpToDate(before.nodes, delivered) && Checked(obs, before, after)
    ensures UpToDate(after.nodes, delivered)
  {
    CheckedUnique(obs, before, after);
    forall n | n in delivered
      ensures Has(after.nodes, n)
    {
      var e :| e in before.nodes && e.node == n;
      Image(obs, before, after, e);
    }
    forall e | e in after.nodes && e.node in delivered
      ensures e == delivered[e.node].(phase := e.phase)
    {
      var b := Origin(obs, before, after, e);
    }
  }

  /** A decodable report is stored, and leaves the cluster phase alone; any other changes nothing. */
  ghost function Stored(decode: Decoder, status: ClusterStatus, data: string): ClusterStatus {
    if decode(data).None? then status
    else status.(nodes := ReplaceOrAppend(status.nodes, decode(data).value))
  }

  /** A report that does not claim to be Ready. The writers of status.json leave the phase unset. */
  predicate Unphased(decode: Decoder, data: string) {
    decode(data).Some? ==> decode(data).value.phase != Ready
  }

  lemma ReplacedReadyHasClass(entries: seq<NodeStorageState>, state: NodeStorageState)
    requires UniqueNodes(entries) && ReadyHasClass(entries) && state.phase != Ready
    ensures ReadyHasClass(ReplaceOrAppend(entries, state))
  {
    ReplacedMembers(entries, state);
  }

  class Cluster {
    const decode: Decoder
    var status: ClusterStatus
    var seen: map<string, string>      // per node, what the informer last handed over
    ghost var delivered: Delivered

    ghost predicate Valid()
      reads this
    {
      && UpToDate(status.nodes, delivered)
      && forall n :: n in seen && decode(seen[n]).Some? ==> n in delivered && delivered[n] == decode(seen[n]).value
    }

    constructor (decode: Decoder, status: ClusterStatus)
      requires UniqueNodes(status.nodes)
      ensures Valid() && this.decode == decode && this.status == status && seen == map[] && delivered == map[]
    {
      this.decode, this.status, seen, delivered := decode, status, map[], map[];
    }

    method UpdateStatus(state: NodeStorageState)
      modifies this`status
      ensures status == old(status).(nodes := ReplaceOrAppend(old(status).nodes, state))
    {
      var entries := status.nodes;
      for i := 0 to |entries|
        invariant ReplaceOrAppend(entries, state) == entries[..i] + ReplaceOrAppend(entries[i..], state)
        invariant status == old(status)
      {
        ReplaceStep(entries, i, state);
        if entries[i].node == state.node {
          status := status.(nodes := entries[i := state]);
          return;
        }
      }
      assert entries[|entries|..] == [] && entries[..|entries|] == entries;
      status := status.(nodes := entries + [state]);
    }

    /** A ConfigMap that the operator had not seen: its report is decoded and stored. */
    method OnAdd(node: string, data: string)
      requires Valid() && OwnReport(decode, node, data)
      modifies this
      ensures Valid() && delivered == Deliver(decode, old(delivered), Add(node, data))
      ensures seen == old(seen)[node := data]
      ensures status == Stored(decode, old(status), data)
      ensures ReadyHasClass(old(status).nodes) && Unphased(decode, data) ==> ReadyHasClass(status.nodes)
    {
      seen := seen[node := data];
      var nodeStatus := decode(data);
      if nodeStatus.None? {
        return;
      }
      Store(nodeStatus.value);
    }

    /** A decoded report becomes the entry of its node. */
    method Store(state: NodeStorageState)
      requires UpToDate(status.nodes, delivered)
      modifies this`status, this`delivered
      ensures UpToDate(status.nodes, delivered) && delivered == old(delivered)[state.node := state]
      ensures status == old(status).(nodes := ReplaceOrAppend(old(status).nodes, state))
      ensures ReadyHasClass(old(status).nodes) && state.phase != Ready ==> ReadyHasClass(status.nodes)
    {
      UpdateKeepsReports(status.nodes, delivered, state);
      if ReadyHasClass(status.nodes) && state.phase != Ready {
        ReplacedReadyHasClass(status.nodes, state);
      }
      UpdateStatus(state);
      delivered := delivered[state.node := state];
    }

    /** A change of a ConfigMap: its report is stored only when the text of it changed. */
    method OnUpdate(node: string, data: string)
      requires Valid() && OwnReport(decode, node, data) && node in seen
      modifies this
      ensures Valid() && delivered == Deliver(decode, old(delivered), Update(node, data))
      ensures seen == old(seen)[node := data]
      ensures status == if data == old(seen)[node] then old(status) else Stored(decode, old(status), data)
      ensures ReadyHasClass(old(status).nodes) && Unphased(decode, data) ==> ReadyHasClass(status.nodes)
    {
      var before := seen[node];
      seen := seen[node := data];
      if before != data {
        var nodeStatus := decode(data);
        if nodeStatus.None? {
          return;
        }
        Store(nodeStatus.value);
      } else if decode(data).Some? {
        assert delivered[node := delivered[node]] == delivered;
      }
    }

    /** Any one step. */
    method Handle(e: Event)
      requires Valid() && (!e.Check? ==> OwnReport(decode, e.node, e.data)) && (e.Update? ==> e.node in seen)
      modifies this
      ensures Valid() && delivered == Deliver(decode, old(delivered), e)
      ensures seen == if e.Check? then old(seen) else old(seen)[e.node := e.data]
      ensures StepTaken(decode, old(seen), e, old(status), status)
      ensures ReadyHasClass(old(status).nodes) && (!e.Check? ==> Unphased(decode, e.data)) ==>
                ReadyHasClass(status.nodes)
    {
      match e {
        case Add(node, data) => OnAdd(node, data);
        case Update(node, data) => OnUpdate(node, data);
        case Check(obs) => CheckStep(obs);
      }
    }

    method CheckStep(obs: Observation)
      requires Valid()
      modifies this`status
      ensures Valid() && Checked(obs, old(status), status) && ReadyHasClass(status.nodes)
    {
      var after, metrics, written := CheckStatus(obs, status);
      CheckedReadyHasClass(obs, status, after);
      CheckKeepsReports(obs, status, after, delivered);
      if written {
        status := after;
      }
    }
  }

  /** The informer hands over an update only for a ConfigMap it has handed over before, and reports
      are about their own node. */
  ghost predicate Proper(decode: Decoder, events: seq<Event>) {
    forall i :: 0 <= i < |events| && !events[i].Check? ==>
      && OwnReport(decode, events[i].node, events[i].data)
      && (events[i].Update? ==> exists j :: 0 <= j < i && !events[j].Check? && events[j].node == events[i].node)
  }

  /** What one handler call or check makes of the status. */
  ghost predicate StepTaken(decode: Decoder, seen: map<string, string>, e: Event,
                            was: ClusterStatus, now: ClusterStatus)
  {
    match e
    case Check(obs) => Checked(obs, was, now)
    case Add(node, data) => now == Stored(decode, was, data)
    case Update(node, data) =>
      now == if node in seen && seen[node] == data then was else Stored(decode, was, data)
  }

  /** The last text handed over for each node. */
  function SeenAfter(events: seq<Event>): map<string, string> {
    if events == [] then map[]
    else
      var e := events[|events| - 1];
      var seen := SeenAfter(events[..|events| - 1]);
      if e.Check? then seen else seen[e.node := e.data]
  }

  /** The statuses along the way, one step for each event. */
  ghost predicate Run(decode: Decoder, events: seq<Event>, statuses: seq<ClusterStatus>) {
    && |statuses| == |events| + 1
    && forall i :: 0 <= i < |events| ==>
         StepTaken(decode, SeenAfter(events[..i]), events[i], statuses[i], statuses[i + 1])
  }

  /** No report claims to be Ready. */
  ghost predicate NonePhased(decode: Decoder, events: seq<Event>) {
    forall e :: e in events && !e.Check? ==> Unphased(decode, e.data)
  }

  /** Under every interleaving of handlers and checks the stored status has one entry per node, and
      the entry of a node is its last decodable report, up to the phase; and, as no writer of a report sets
      its phase, a second check that sees the same changes nothing. */
  method Interleave(cluster: Cluster, events: seq<Event>) returns (ghost statuses: seq<ClusterStatus>)
    requires cluster.Valid() && cluster.seen == map[] && cluster.delivered == map[]
    requires Proper(cluster.decode, events)
    modifies cluster
    ensures cluster.Valid()
    ensures Run(cluster.decode, events, statuses)
    ensures statuses[0] == old(cluster.status) && statuses[|events|] == cluster.status
    ensures UpToDate(cluster.status.nodes, DeliverAll(cluster.decode, map[], events))
    ensures ReadyHasClass(old(cluster.status).nodes) && NonePhased(cluster.decode, events) ==>
              ReadyHasClass(cluster.status.nodes) && Steady(cluster.status)
  {
    statuses := [cluster.status];
    for i := 0 to |events|
      invariant cluster.Valid() && cluster.seen == SeenAfter(events[..i])
      invariant Run(cluster.decode, events[..i], statuses)
      invariant statuses[0] == old(cluster.status) && statuses[i] == cluster.status
      invariant cluster.delivered == DeliverAll(cluster.decode, map[], events[..i])
      invariant ReadyHasClass(old(cluster.status).nodes) && NonePhased(cluster.decode, events) ==>
                  ReadyHasClass(cluster.status.nodes)
    {
      assert events[i] in events;
      SeenAll(events, i);
      cluster.Handle(events[i]);
      RunGrows(cluster.decode, events, i, statuses, cluster.status);
      statuses := statuses + [cluster.status];
    }
    assert events[..|events|] == events;
    if ReadyHasClass(cluster.status.nodes) {
      ReadyHasClassIsSteady(cluster.status);
    }
  }

  /** Every node that an event was about has been seen. */
  lemma {:induction false} SeenAll(events: seq<Event>, n: nat)
    requires n <= |events|
    ensures forall j :: 0 <= j < n && !events[j].Check? ==> events[j].node in SeenAfter(events[..n])
    ensures n < |events| ==> events[..n + 1][..n] == events[..n] && events[..n + 1][n] == events[n]
  {
    if n == 0 {
    } else {
      SeenAll(events, n - 1);
    }
  }

  lemma RunGrows(decode: Decoder, events: seq<Event>, n: nat, statuses: seq<ClusterStatus>, next: ClusterStatus)
    requires n < |events| && Run(decode, events[..n], statuses)
    requires StepTaken(decode, SeenAfter(events[..n]), events[n], statuses[n], next)
    ensures Run(decode, events[..n + 1], statuses + [next])
  {
    var more := events[..n + 1];
    forall i | 0 <= i < n + 1
      ensures more[..i] == events[..i] && (i < n ==> events[..n][..i] == events[..i] && events[..n][i] == more[i])
    {
    }
  }
}
