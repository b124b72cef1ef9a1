/** The debouncer of udev events. A run is the times at which matching events arrive, in order, and
    the time at which the event channel is closed, if it is. The consumer is always ready, and an
    event that arrives exactly when the timer fires may be taken by either. */
module UdevDebounce {
  import opened ClusterTypes

  /** An emission: when, and for which event. */
  datatype Emission = Emission(time: int, event: nat)

  ghost predicate Ordered(times: seq<int>) {
    forall i, j :: 0 <= i <= j < |times| ==> times[i] <= times[j]
  }

  /** The event is announced no later than one period after it arrives, and not before. */
  ghost predicate Announced(emissions: seq<Emission>, time: int, period: int) {
    exists e :: e in emissions && time <= e.time <= time + period
  }

  /** The inner loop: takes events until the timer fires or the channel closes. */
  method Swallow(times: seq<int>, event: nat, timeout: int, closed: Option<int>) returns (next: nat, fired: bool)
    requires Ordered(times) && event < |times| && times[event] <= timeout
    requires closed.Some? ==> forall i :: 0 <= i < |times| ==> times[i] <= closed.value
    ensures event < next <= |times|
    ensures forall i :: event <= i < next ==> times[i] <= timeout
    ensures fired ==> forall i :: next <= i < |times| ==> timeout <= times[i]
    ensures fired && closed.Some? ==> timeout <= closed.value
    ensures !fired ==> closed.Some? && closed.value <= timeout
  {
    next, fired := event + 1, false;
    while !fired
      invariant event < next <= |times|
      invariant forall i :: event <= i < next ==> times[i] <= timeout
      invariant fired ==> forall i :: next <= i < |times| ==> timeout <= times[i]
      invariant fired && closed.Some? ==> timeout <= closed.value
      decreases |times| - next, !fired
    {
      var timerFirst: bool := *;
      if next < |times| && (times[next] < timeout || (times[next] == timeout && !timerFirst)) {
        next := next + 1;
      } else if next == |times| && closed.Some?
                && (closed.value < timeout || (closed.value == timeout && !timerFirst)) {
        return;
      } else {
        fired := true;
      }
    }
  }

  /** Each emission is one period after the event it is for, and no sooner than a period after the
      emission before it. */
  ghost predicate Spaced(emissions: seq<Emission>, times: seq<int>, period: int) {
    && (forall k :: 0 <= k < |emissions| ==>
          emissions[k].event < |times| && emissions[k].time == times[emissions[k].event] + period)
    && (forall k, l :: 0 <= k < l < |emissions| ==> emissions[k].time + period <= emissions[l].time)
  }

  ghost predicate Until(emissions: seq<Emission>, time: int) {
    forall k :: 0 <= k < |emissions| ==> emissions[k].time <= time
  }

  method UdevBlockMonitor(times: seq<int>, closed: Option<int>, period: int) returns (emissions: seq<Emission>)
    requires Ordered(times) && period > 0
    requires closed.Some? ==> forall i :: 0 <= i < |times| ==> times[i] <= closed.value
    ensures Spaced(emissions, times, period)
    ensures forall i :: 0 <= i < |times| && (closed.None? || times[i] + period < closed.value) ==>
              Announced(emissions, times[i], period)
    ensures closed.Some? ==> Until(emissions, closed.value)
  {
    emissions := [];
    var next := 0;
    while next < |times|
      invariant 0 <= next <= |times|
      invariant Spaced(emissions, times, period)
      invariant next < |times| ==> Until(emissions, times[next])
      invariant forall i :: 0 <= i < next ==> Announced(emissions, times[i], period)
      invariant closed.Some? ==> Until(emissions, closed.value)
    {
      var event := next;
      var fired;
      next, fired := Swallow(times, event, times[event] + period, closed);
      if !fired {
        return;
      }
      var e := Emission(times[event] + period, event);
      AnnounceMore(emissions, e, times, event, next, period);
      SpaceMore(emissions, e, times, period);
      emissions := emissions + [e];
      if closed.Some? {
        UntilLater(emissions, e.time, closed.value);
      }
      if next < |times| {
        UntilLater(emissions, e.time, times[next]);
      }
    }
  }

  lemma SpaceMore(emissions: seq<Emission>, e: Emission, times: seq<int>, period: int)
    requires Spaced(emissions, times, period) && e.event < |times| && e.time == times[e.event] + period
    requires Until(emissions, times[e.event]) && period > 0
    ensures Spaced(emissions + [e], times, period) && Until(emissions + [e], e.time)
  {
  }

  lemma UntilLater(emissions: seq<Emission>, time: int, later: int)
    requires Until(emissions, time) && time <= later
    ensures Until(emissions, later)
  {
  }

  lemma AnnounceMore(emissions: seq<Emission>, e: Emission, times: seq<int>, event: nat, next: nat, period: int)
    requires Ordered(times) && event < next <= |times| && period > 0
    requires e.time == times[event] + period
    requires forall i :: 0 <= i < event ==> Announced(emissions, times[i], period)
    requires forall i :: event <= i < next ==> times[i] <= e.time
    ensures forall i :: 0 <= i < next ==> Announced(emissions + [e], times[i], period)
  {
  }
}
