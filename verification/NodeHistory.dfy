/** What happens on one node over time: its users change their logical volumes, the job runs, the discover
    daemon checks the devices of the report. */
module NodeHistory {
  import opened ClusterTypes
  import opened LvmHost
  import opened LoopRegistry
  import opened ClassStatus
  import opened ClassGroups
  import opened RunMaps
  import opened ClassSteps
  import opened RunStages
  import opened PrepareVg
  import DeviceCheck

  /** One run of the job with what it is started with, what the users of the node do to its logical volumes
      before it, and the device checks that follow it. */
  datatype Job = Job(
    classes: seq<DeviceClass>, avail: set<string>, useLoop: bool,
    lvChange: Option<map<string, LogicalVolume>>, checks: seq<DeviceCheck.Listing>)

  function LvsAfter(job: Job, answer: Outcome, lvs: map<string, LogicalVolume>): map<string, LogicalVolume> {
    if answer.Ok? && job.lvChange.Some? then job.lvChange.value else lvs
  }

  /** The logical volumes of the last change that LVM accepted. */
  function LastAccepted(jobs: seq<Job>, answers: seq<Outcome>, lvs: map<string, LogicalVolume>)
    : map<string, LogicalVolume>
    requires |answers| == |jobs|
  {
    if jobs == [] then lvs
    else
      var n := |jobs| - 1;
      LvsAfter(jobs[n], answers[n], LastAccepted(jobs[..n], answers[..n], lvs))
  }

  function UserEntry(job: Job, answer: Outcome): seq<Entry> {
    if job.lvChange.Some? then [Entry(LvChange(job.lvChange.value), answer)] else []
  }

  // ----- device checks between runs -----

  lemma {:induction false} CheckedMap(classes: seq<ClassState>, listing: DeviceCheck.Listing)
    requires DeviceCheck.Listable(classes, listing)
    ensures var was, now := VgNameMap(classes), VgNameMap(DeviceCheck.CheckClasses(classes, listing));
      now.Keys == was.Keys && forall vg :: vg in was ==> now[vg].name == was[vg].name
  {
    if classes == [] {
    } else {
      var n := |classes| - 1;
      assert forall c :: c in classes[..n] ==> c in classes;
      CheckedMap(classes[..n], listing);
      var checked := DeviceCheck.CheckClasses(classes, listing);
      assert checked[..n] == DeviceCheck.CheckClasses(classes[..n], listing);
      assert VgNameMap(checked) == VgNameMap(checked[..n])[checked[n].vgName := checked[n]];
      assert VgNameMap(classes) == VgNameMap(classes[..n])[classes[n].vgName := classes[n]];
    }
  }

  /** The record differs in the health of the success classes and their devices only. */
  ghost predicate SameButHealth(a: NodeRecord, b: NodeRecord) {
    && a.lvmd == b.lvmd && (a.status.None? <==> b.status.None?)
    && (a.status.Some? ==> b.status.value == a.status.value.(successClasses := b.status.value.successClasses))
    && Successes(a).Keys == Successes(b).Keys
    && forall vg :: vg in Successes(a) ==> Successes(b)[vg].name == Successes(a)[vg].name
  }

  /** The record after these device checks. A check that cannot list some group changes nothing. */
  function AfterChecks(rec: NodeRecord, checks: seq<DeviceCheck.Listing>): NodeRecord {
    if checks == [] then rec
    else
      var now := AfterChecks(rec, checks[..|checks| - 1]);
      var listing := checks[|checks| - 1];
      if now.status.Some? && DeviceCheck.Listable(now.status.value.successClasses, listing) then
        var classes := DeviceCheck.CheckClasses(now.status.value.successClasses, listing);
        now.(status := Some(now.status.value.(successClasses := classes)))
      else now
  }

  /** The discover daemon rewrites status.json after its check. */
  method CheckDevices(rec: NodeRecord, checks: seq<DeviceCheck.Listing>) returns (rec': NodeRecord)
    ensures rec' == AfterChecks(rec, checks) && SameButHealth(rec, rec')
  {
    rec' := rec;
    for i := 0 to |checks|
      invariant rec' == AfterChecks(rec, checks[..i]) && SameButHealth(rec, rec')
    {
      assert checks[..i + 1][..i] == checks[..i];
      if rec'.status.Some? {
        ghost var classes := rec'.status.value.successClasses;
        var done, status := DeviceCheck.CheckDeviceClass(rec'.status.value, checks[i]);
        if done {
          CheckedMap(classes, checks[i]);
        }
        rec' := rec'.(status := Some(status));
      }
    }
    assert checks[..|checks|] == checks;
  }

  /** A device check keeps a good record good, and one at rest at rest. */
  lemma DeviceCheckKeepsRecord(bind: map<string, string>, spec: seq<DeviceClass>, h: HostState,
                               a: NodeRecord, b: NodeRecord)
    requires SameButHealth(a, b)
    ensures RecordOk(bind, a) ==> RecordOk(bind, b)
    ensures Rested(spec, h, a) ==> Rested(spec, h, b)
  {
    if Rested(spec, h, a) {
      AchievedStays(spec, h, Successes(a), h, Successes(b));
    }
  }

  // ----- one job -----

  /** The node at one point of its history. */
  datatype Point = Point(h: HostState, log: seq<Entry>, rec: NodeRecord, loops: seq<LoopState>)

  /** What a run leaves: the record it writes, its maps, the loops it saw, and the groups it removed. */
  datatype Ran = Ran(written: NodeRecord, end: Moment, loopMap: LoopMap, gone: set<string>)

  /** The run wrote what it made of the node. */
  ghost predicate RunWrote(healthy: bool, job: Job, rec: NodeRecord, h: HostState, log: seq<Entry>, ran: Ran) {
    && Written(ran.written, ran.end.suc, ran.end.fail)
    && Outcomes(healthy, job.avail, ran.loopMap, job.classes, rec, h, log, ran.written, ran.end, ran.gone)
  }

  /** The job led from one point to the other: the users' change came first, then the run, then the device
      checks. A run that could not list the groups changed nothing. */
  ghost predicate JobLed(healthy: bool, job: Job, p: Point, q: Point, done: bool, answer: Outcome, ran: Ran) {
    var h := p.h.(lvs := LvsAfter(job, answer, p.h.lvs));
    var log := p.log + UserEntry(job, answer);
    if done then
      && RunWrote(healthy, job, p.rec, h, log, ran)
      && q == Point(ran.end.h, ran.end.log, AfterChecks(ran.written, job.checks), q.loops)
    else
      q == Point(q.h, log, AfterChecks(p.rec, job.checks), p.loops)
  }

  /** What a run turns a record into. */
  ghost predicate RecordMoved(bind: map<string, string>, spec: seq<DeviceClass>, rec: NodeRecord, rec': NodeRecord,
                              done: bool)
  {
    && PhaseOf(rec') == PhaseOf(rec)
    && (!done ==> SameButHealth(rec, rec'))
    && (SpecOk(bind, spec) && RecordOk(bind, rec) ==>
          RecordOk(bind, rec') && (done ==> FlagsFollow(spec, rec'.lvmd) && ConfigFollows(spec, rec, rec'.lvmd)))
  }

  /** The run itself. */
  method StartRun(host: Host, nodeName: string, job: Job, rec: NodeRecord, loops: seq<LoopState>,
                  ghost bind: map<string, string>)
    returns (rec': NodeRecord, loops': seq<LoopState>, done: bool, ghost calls: seq<string>, ghost ran: Ran)
    requires host.Valid()
    modifies host
    ensures host.Valid() && old(host.log) <= host.log && host.st.lvs == old(host.st.lvs)
    ensures host.healthy ==> done
    ensures if done then LoopRun(loops, loops', calls) else loops' == loops
    ensures CallsMade(job, loops, calls)
    ensures if done then RunWrote(host.healthy, job, rec, old(host.st), old(host.log), ran)
                         && ran == Ran(rec', Moment(host.st, host.log, ran.end.suc, ran.end.fail),
                                       ran.loopMap, ran.gone)
            else rec' == rec && host.log == old(host.log)
    ensures RecordMoved(bind, job.classes, rec, rec', done)
    ensures rec.status.Some? ==> done
  {
    var run := new PrePareVg(nodeName, host, job.classes, loops);
    ghost var answers, gone;
    rec', done, calls, answers, gone := run.Provision(job.avail, job.useLoop, rec, bind);
    loops' := if done then run.loopsState else loops;
    ran := Ran(rec', run.Now(), run.loopMap, gone);
  }

  method RunJob(host: Host, nodeName: string, job: Job, rec: NodeRecord, loops: seq<LoopState>,
                ghost bind: map<string, string>)
    returns (rec': NodeRecord, loops': seq<LoopState>, done: bool,
             ghost calls: seq<string>, ghost answer: Outcome, ghost ran: Ran)
    requires host.Valid()
    modifies host
    ensures host.Valid() && old(host.log) <= host.log
    ensures host.st.lvs == LvsAfter(job, answer, old(host.st.lvs))
    ensures host.healthy && job.lvChange.Some? ==> (answer.Ok? <==> Placed(old(host.st), job.lvChange.value))
    ensures host.healthy ==> done
    ensures if done then LoopRun(loops, loops', calls) else loops' == loops
    ensures CallsMade(job, loops, calls)
    ensures JobLed(host.healthy, job, Point(old(host.st), old(host.log), rec, loops),
                   Point(host.st, host.log, rec', loops'), done, answer, ran)
    ensures RecordMoved(bind, job.classes, rec, rec', done)
    ensures host.healthy && Tidy(job.classes) && Successes(rec).Keys !! Failures(rec).Keys
            && AllAttainable(job.classes, job.avail,
                 old(host.st).(lvs := LvsAfter(job, answer, old(host.st.lvs))), Successes(rec)) ==>
              Rested(job.classes, host.st, rec')
    ensures Rested(job.classes, old(host.st), rec) ==>
              Rested(job.classes, host.st, rec') && host.log == old(host.log) + UserEntry(job, answer)
  {
    answer := ChangeVolumes(host, job);
    ghost var h, log := host.st, host.log;
    var written;
    written, loops', done, calls, ran := StartRun(host, nodeName, job, rec, loops, bind);
    rec' := CheckDevices(written, job.checks);
    DeviceCheckKeepsRecord(bind, job.classes, host.st, written, rec');
    if done {
      JobRests(host.healthy, job, rec, old(host.st), h, log, ran, rec');
    }
  }

  /** An unhindered spec is achieved by the run, and an achieved one left alone, whatever the users and the device
      checks did. */
  lemma JobRests(healthy: bool, job: Job, rec: NodeRecord, h0: HostState, h: HostState, log: seq<Entry>, ran: Ran,
                 rec': NodeRecord)
    requires RunWrote(healthy, job, rec, h, log, ran) && SameButHealth(ran.written, rec') && h.vgs == h0.vgs
    ensures healthy && Tidy(job.classes) && Successes(rec).Keys !! Failures(rec).Keys
            && AllAttainable(job.classes, job.avail, h, Successes(rec)) ==>
              Rested(job.classes, ran.end.h, rec')
    ensures Rested(job.classes, h0, rec) ==> Rested(job.classes, ran.end.h, rec') && ran.end.log == log
  {
    DeviceCheckKeepsRecord(map[], job.classes, ran.end.h, ran.written, rec');
    if Rested(job.classes, h0, rec) {
      AchievedStays(job.classes, h0, Successes(rec), h, Successes(rec));
    }
  }

  /** The loop devices that a job has created are those its classes want from this registry. */
  ghost predicate CallsMade(job: Job, loops: seq<LoopState>, calls: seq<string>) {
    forall name :: multiset(calls)[name] ==
                   if job.useLoop then Creations(AllDisks(job.classes), name, Mark(loops, name)) else 0
  }

  method ChangeVolumes(host: Host, job: Job) returns (ghost answer: Outcome)
    requires host.Valid()
    modifies host
    ensures host.Valid() && host.log == old(host.log) + UserEntry(job, answer)
    ensures host.st == old(host.st).(lvs := LvsAfter(job, answer, old(host.st.lvs)))
    ensures host.healthy && job.lvChange.Some? ==> (answer.Ok? <==> Placed(old(host.st), job.lvChange.value))
  {
    answer := Ok;
    if job.lvChange.Some? {
      var r := host.Issue(LvChange(job.lvChange.value));
      answer := r;
    }
  }

  // ----- any number of jobs -----

  ghost predicate Led(healthy: bool, job: Job, p: Point, q: Point) {
    exists done, answer, ran :: JobLed(healthy, job, p, q, done, answer, ran)
  }

  /** The points of the history: each job led from one to the next. */
  ghost predicate Journey(healthy: bool, jobs: seq<Job>, points: seq<Point>) {
    && |points| == |jobs| + 1
    && (jobs != [] ==>
          var n := |jobs| - 1;
          Journey(healthy, jobs[..n], points[..n + 1]) && Led(healthy, jobs[n], points[n], points[n + 1]))
  }

  /** What holds after the first n jobs. */
  ghost predicate History(healthy: bool, bind: map<string, string>, jobs: seq<Job>, n: nat, points: seq<Point>,
                          answers: seq<Outcome>, calls: seq<string>, completed: bool)
    requires n <= |jobs|
  {
    && |points| == n + 1 && |answers| == n && Journey(healthy, jobs[..n], points)
    && points[n].h.lvs == LastAccepted(jobs[..n], answers, points[0].h.lvs)
    && Recorded(bind, jobs, n, points[n].rec, completed)
    && PhaseOf(points[n].rec) == ConditionUnset
    && Registered(completed, points[n].loops, calls)
    && (healthy ==> completed)
  }

  /** What one job makes of the node, as far as its history goes. */
  ghost predicate JobMoved(healthy: bool, bind: map<string, string>, job: Job, p: Point, q: Point,
                           done: bool, calls: seq<string>, answer: Outcome)
  {
    && q.h.lvs == LvsAfter(job, answer, p.h.lvs) && (healthy ==> done)
    && RecordMoved(bind, job.classes, p.rec, q.rec, done)
    && (done ==> LoopRun(p.loops, q.loops, calls))
  }

  lemma HistoryGrows(healthy: bool, bind: map<string, string>, jobs: seq<Job>, n: nat, points: seq<Point>,
                     answers: seq<Outcome>, calls: seq<string>, completed: bool,
                     next: Point, done: bool, more: seq<string>, answer: Outcome)
    requires n < |jobs| && History(healthy, bind, jobs, n, points, answers, calls, completed)
    requires Led(healthy, jobs[n], points[n], next)
    requires JobMoved(healthy, bind, jobs[n], points[n], next, done, more, answer)
    ensures History(healthy, bind, jobs, n + 1, points + [next], answers + [answer], calls + more, completed && done)
  {
    assert jobs[..n + 1][..n] == jobs[..n] && (points + [next])[..n + 1] == points;
    NextRecorded(bind, jobs, n, points[n].rec, next.rec, completed, done);
    NextAccepted(jobs, n, answers, answer, points[0].h.lvs);
    NextRegistered(completed, points[n].loops, calls, done, next.loops, more);
  }

  /** Any sequence of jobs, with any specs and any failures. The logical volumes end as their users last
      changed them; while specs keep to their binding the record stays good; and as long as each run gets to
      write its registry, no loop device is created twice. */
  method RunHistory(host: Host, nodeName: string, jobs: seq<Job>, ghost bind: map<string, string>)
    returns (rec: NodeRecord, loops: seq<LoopState>, completed: bool,
             ghost calls: seq<string>, ghost answers: seq<Outcome>, ghost points: seq<Point>)
    requires host.Valid()
    modifies host
    ensures host.Valid() && old(host.log) <= host.log
    ensures Journey(host.healthy, jobs, points)
    ensures points[0] == Point(old(host.st), old(host.log), NodeRecord(None, None), [])
    ensures points[|jobs|] == Point(host.st, host.log, rec, loops)
    ensures |answers| == |jobs| && host.st.lvs == LastAccepted(jobs, answers, old(host.st.lvs))
    ensures (forall j :: j in jobs ==> SpecOk(bind, j.classes)) ==> RecordOk(bind, rec)
    ensures (forall j :: j in jobs ==> SpecOk(bind, j.classes)) && completed && jobs != [] ==>
              FlagsFollow(jobs[|jobs| - 1].classes, rec.lvmd)
    ensures PhaseOf(rec) == ConditionUnset
    ensures completed ==> Distinct(calls) && Elements(calls) <= LoopNames(loops)
    ensures host.healthy ==> completed
  {
    rec, loops, calls, completed, answers := NodeRecord(None, None), [], [], true, [];
    points := [Point(host.st, host.log, rec, loops)];
    for i := 0 to |jobs|
      invariant host.Valid() && old(host.log) <= host.log
      invariant History(host.healthy, bind, jobs, i, points, answers, calls, completed)
      invariant points[0] == Point(old(host.st), old(host.log), NodeRecord(None, None), [])
      invariant points[i] == Point(host.st, host.log, rec, loops)
    {
      var done;
      ghost var more, answer;
      rec, loops, done, more, answer := NextJob(host, nodeName, jobs[i], rec, loops, bind);
      ghost var next := Point(host.st, host.log, rec, loops);
      HistoryGrows(host.healthy, bind, jobs, i, points, answers, calls, completed, next, done, more, answer);
      points, answers, calls := points + [next], answers + [answer], calls + more;
      completed := completed && done;
    }
    assert jobs[..|jobs|] == jobs;
  }

  /** One job of a history. */
  method NextJob(host: Host, nodeName: string, job: Job, rec: NodeRecord, loops: seq<LoopState>,
                 ghost bind: map<string, string>)
    returns (rec': NodeRecord, loops': seq<LoopState>, done: bool, ghost calls: seq<string>, ghost answer: Outcome)
    requires host.Valid()
    modifies host
    ensures host.Valid() && old(host.log) <= host.log
    ensures Led(host.healthy, job, Point(old(host.st), old(host.log), rec, loops),
                Point(host.st, host.log, rec', loops'))
    ensures JobMoved(host.healthy, bind, job, Point(old(host.st), old(host.log), rec, loops),
                     Point(host.st, host.log, rec', loops'), done, calls, answer)
  {
    ghost var ran;
    rec', loops', done, calls, answer, ran := RunJob(host, nodeName, job, rec, loops, bind);
    assert JobLed(host.healthy, job, Point(old(host.st), old(host.log), rec, loops),
                  Point(host.st, host.log, rec', loops'), done, answer, ran);
  }

  /** The record after n jobs is good while the specs keep to their binding. */
  ghost predicate Recorded(bind: map<string, string>, jobs: seq<Job>, n: nat, rec: NodeRecord, completed: bool)
    requires n <= |jobs|
  {
    (forall j :: j in jobs ==> SpecOk(bind, j.classes)) ==>
      RecordOk(bind, rec) && (completed && n > 0 ==> FlagsFollow(jobs[n - 1].classes, rec.lvmd))
  }

  lemma NextRecorded(bind: map<string, string>, jobs: seq<Job>, n: nat, was: NodeRecord, rec: NodeRecord,
                     completed: bool, done: bool)
    requires n < |jobs| && Recorded(bind, jobs, n, was, completed)
    requires RecordMoved(bind, jobs[n].classes, was, rec, done)
    ensures Recorded(bind, jobs, n + 1, rec, completed && done)
  {
    assert jobs[n] in jobs;
  }

  ghost predicate Registered(completed: bool, loops: seq<LoopState>, calls: seq<string>) {
    completed ==> LoopRun([], loops, calls) && Distinct(calls) && Elements(calls) <= LoopNames(loops)
  }

  lemma NextRegistered(completed: bool, loops: seq<LoopState>, calls: seq<string>, done: bool,
                       loops': seq<LoopState>, more: seq<string>)
    requires Registered(completed, loops, calls)
    requires done ==> LoopRun(loops, loops', more)
    ensures Registered(completed && done, loops', calls + more)
  {
    if completed && done {
      RunsCompose([], loops, loops', calls, more);
    }
  }

  lemma NextAccepted(jobs: seq<Job>, n: nat, answers: seq<Outcome>, yes: Outcome, lvs: map<string, LogicalVolume>)
    requires n < |jobs| && |answers| == n
    ensures LastAccepted(jobs[..n + 1], answers + [yes], lvs)
              == LvsAfter(jobs[n], yes, LastAccepted(jobs[..n], answers, lvs))
  {
    assert jobs[..n + 1][..n] == jobs[..n] && (answers + [yes])[..n] == answers;
  }

  // ----- the same spec again -----

  function UserChanges(jobs: seq<Job>): nat {
    if jobs == [] then 0
    else UserChanges(jobs[..|jobs| - 1]) + if jobs[|jobs| - 1].lvChange.Some? then 1 else 0
  }

  /** Since the log had length n the users made these changes, and nobody else did anything. */
  ghost predicate OnlyUserChanges(log: seq<Entry>, n: nat, jobs: seq<Job>) {
    && |log| == n + UserChanges(jobs)
    && forall i :: n <= i < |log| ==> log[i].command.LvChange?
  }

  predicate AllFor(jobs: seq<Job>, spec: seq<DeviceClass>) {
    forall j :: j in jobs ==> j.classes == spec
  }

  /** Once the node holds what the spec asks for, runs for that spec issue no command at all, whatever the
      users do to their logical volumes and whatever the device checks find in between. */
  method RepeatRuns(host: Host, nodeName: string, jobs: seq<Job>, before: NodeRecord, registry: seq<LoopState>,
                    ghost spec: seq<DeviceClass>)
    returns (rec: NodeRecord, loops: seq<LoopState>)
    requires host.Valid()
    modifies host
    ensures host.Valid() && old(host.log) <= host.log
    ensures Rested(spec, old(host.st), before) && AllFor(jobs, spec) ==>
              Rested(spec, host.st, rec) && OnlyUserChanges(host.log, |old(host.log)|, jobs)
  {
    rec, loops := before, registry;
    ghost var resting := Rested(spec, host.st, before) && AllFor(jobs, spec);
    for i := 0 to |jobs|
      invariant host.Valid() && old(host.log) <= host.log
      invariant resting ==> Rested(spec, host.st, rec) && OnlyUserChanges(host.log, |old(host.log)|, jobs[..i])
    {
      assert jobs[..i + 1][..i] == jobs[..i];
      assert jobs[i] in jobs;
      var done;
      ghost var calls, answer, ran;
      rec, loops, done, calls, answer, ran := RunJob(host, nodeName, jobs[i], rec, loops, map[]);
    }
    assert jobs[..|jobs|] == jobs;
  }

  /** Nothing stands in the way of what this job asks for. */
  ghost predicate Unhindered(job: Job, host: Host, rec: NodeRecord)
    reads host
  {
    && host.healthy && job.lvChange.None? && Tidy(job.classes)
    && Successes(rec).Keys !! Failures(rec).Keys
    && AllAttainable(job.classes, job.avail, host.st, Successes(rec))
  }

  /** One run is enough: when nothing stands in the way of the spec, the first run gives every group exactly its
      devices, and no later run for the spec issues a command. The log has length settled after the first. */
  method RunThenRepeat(host: Host, nodeName: string, job: Job, jobs: seq<Job>, before: NodeRecord,
                       registry: seq<LoopState>)
    returns (rec: NodeRecord, loops: seq<LoopState>, ghost settled: nat)
    requires host.Valid()
    modifies host
    ensures host.Valid() && |old(host.log)| <= settled <= |host.log|
    ensures old(Unhindered(job, host, before)) && AllFor(jobs, job.classes) ==>
              && Rested(job.classes, host.st, rec) && OnlyUserChanges(host.log, settled, jobs)
              && forall d :: d in job.classes ==> Holds(Replay(host.start, host.log[..settled]), d)
  {
    ghost var ready := Unhindered(job, host, before) && AllFor(jobs, job.classes);
    var done;
    ghost var calls, answer, ran;
    rec, loops, done, calls, answer, ran := RunJob(host, nodeName, job, before, registry, map[]);
    settled := |host.log|;
    ghost var log := host.log;
    if ready {
      assert forall d :: d in job.classes ==> Provided(host.st, Successes(rec), d);
    }
    rec, loops := RepeatRuns(host, nodeName, jobs, rec, loops, job.classes);
    assert host.log[..settled] == log;
  }

  // ----- after an aborted run -----

  /** A run that could not list the groups has written nothing, so the next one starts from the same registry,
      and both create the loop devices that both their specs want and the registry has no success for. */
  method RunAfterAbort(host: Host, nodeName: string, aborted: Job, next: Job, before: NodeRecord,
                       registry: seq<LoopState>)
    returns (rec: NodeRecord, loops: seq<LoopState>, done: bool, ghost first: seq<string>, ghost second: seq<string>)
    requires host.Valid()
    modifies host
    ensures host.Valid()
    ensures !done && aborted.useLoop && next.useLoop ==> forall name :: name in first && name in second <==>
              && Mark(registry, name) != Some(true)
              && Wants(AllDisks(aborted.classes), name, Mark(registry, name))
              && Wants(AllDisks(next.classes), name, Mark(registry, name))
  {
    ghost var answer, ran;
    rec, loops, done, first, answer, ran := RunJob(host, nodeName, aborted, before, registry, map[]);
    var completed;
    rec, loops, completed, second, answer, ran := RunJob(host, nodeName, next, rec, loops, map[]);
    if !done && aborted.useLoop && next.useLoop {
      forall name
        ensures name in first && name in second <==>
                && Mark(registry, name) != Some(true)
                && Wants(AllDisks(aborted.classes), name, Mark(registry, name))
                && Wants(AllDisks(next.classes), name, Mark(registry, name))
      {
        CreatedTwiceExactly(registry, AllDisks(aborted.classes), AllDisks(next.classes), name);
        assert name in first <==> multiset(first)[name] > 0;
        assert name in second <==> multiset(second)[name] > 0;
      }
    }
  }
}
