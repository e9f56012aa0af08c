/** Safety and progress of polling over every interleaving of steps. */
module SynchronizerRuns {
  import opened Base
  import opened Synchronizer

  predicate IsRun(cfg: Config, s: State, events: seq<Event>)
    decreases events
  {
    events != [] ==> IsEnabled(s, events[0]) && IsRun(cfg, Step(cfg, s, events[0]), events[1..])
  }

  function Final(cfg: Config, s: State, events: seq<Event>): State
    requires IsRun(cfg, s, events)
    decreases events
  {
    if events == [] then s else Final(cfg, Step(cfg, s, events[0]), events[1..])
  }

  lemma SingleStep(cfg: Config, s: State, e: Event)
    requires IsEnabled(s, e)
    ensures IsRun(cfg, s, [e])
    ensures Final(cfg, s, [e]) == Step(cfg, s, e)
  {
    assert [e][1..] == [];
    assert IsRun(cfg, Step(cfg, s, e), []);
  }

  // ----- the timer invariant

  /** A poll started by timer `t` is under way. */
  ghost predicate IsPolling(s: State, t: nat) {
    exists r :: r in s.refreshes && s.refreshes[r].origin == ByTimer(t)
  }

  /** At most one timer is pending, it is the named one, and a named timer is pending or being served. */
  ghost predicate TimerInv(s: State) {
    match s.timer
    case None => s.pending == map[]
    case Some(t) => s.pending.Keys <= {t} && (t in s.pending || IsPolling(s, t))
  }

  /** Identifiers in use are below the next one, so new ones are new. */
  ghost predicate FreshInv(s: State) {
    && (s.timer.Some? ==> s.timer.value < s.nextId)
    && (forall t :: t in s.pending ==> t < s.nextId)
    && (forall r :: r in s.refreshes ==> r < s.nextId)
    && (forall c :: c in s.starts ==> c < s.nextId)
    && (forall c :: c in s.stops ==> c < s.nextId)
  }

  lemma ScheduleKeepsTimerInv(s: State, delayMs: nat)
    requires s.timer.None? ==> s.pending == map[]
    requires s.timer.Some? ==> s.pending.Keys <= {s.timer.value}
    ensures TimerInv(Schedule(s, delayMs))
    ensures Schedule(s, delayMs).pending == map[s.nextId := delayMs]
  {
    var kept := if s.timer.Some? then s.pending - {s.timer.value} else s.pending;
    assert kept == map[];
  }

  lemma StepKeepsFreshInv(cfg: Config, s: State, e: Event)
    requires FreshInv(s)
    requires IsEnabled(s, e)
    ensures FreshInv(Step(cfg, s, e))
  {
  }

  /** A poll stays under way through every step that neither finishes it nor moves the timer. */
  lemma PollingPersists(s: State, s': State, t: nat)
    requires IsPolling(s, t)
    requires forall r :: r in s.refreshes && s.refreshes[r].origin == ByTimer(t) ==>
               r in s'.refreshes && s'.refreshes[r].origin == ByTimer(t)
    ensures IsPolling(s', t)
  {
    var r :| r in s.refreshes && s.refreshes[r].origin == ByTimer(t);
    assert s'.refreshes[r].origin == ByTimer(t);
  }

  lemma StepKeepsTimerInv(cfg: Config, s: State, e: Event)
    requires TimerInv(s) && FreshInv(s)
    requires IsEnabled(s, e)
    ensures TimerInv(Step(cfg, s, e))
  {
    var s' := Step(cfg, s, e);
    match e {
      case StartDone(c) =>
        ScheduleKeepsTimerInv(s.(starts := s.starts - {c}), 0);
      case StopCall =>
      case RestArrives(r) =>
        if s.timer.Some? {
          var report := s.refreshes[r].phase.report;
          ScheduleKeepsTimerInv(
            s.(refreshes := s.refreshes - {r}, syncStatus := report,
               status := if IsComplete(report) then SYNCED else SYNCING),
            if IsSyncing(report) then cfg.syncingMs else cfg.syncedMs);
        }
      case RejectionHandled(r) =>
        if s.refreshes[r].origin.ByTimer? && s.timer.Some? {
          ScheduleKeepsTimerInv(s.(refreshes := s.refreshes - {r}), cfg.errorMs);
        } else if s.timer.Some? && s.timer.value !in s.pending {
          PollingPersists(s, s', s.timer.value);
        }
      case TimerFires(t) =>
        assert s.timer == Some(t);
        assert s'.refreshes[s.nextId].origin == ByTimer(t);
      case _ =>
        if s.timer.Some? && s.timer.value !in s.pending {
          PollingPersists(s, s', s.timer.value);
        }
    }
  }

  /** In every run from a new synchronizer. */
  lemma {:induction false} RunsKeepTimerInv(cfg: Config, s: State, events: seq<Event>)
    requires IsRun(cfg, s, events)
    requires TimerInv(s) && FreshInv(s)
    ensures TimerInv(Final(cfg, s, events)) && FreshInv(Final(cfg, s, events))
    decreases events
  {
    if events != [] {
      StepKeepsTimerInv(cfg, s, events[0]);
      StepKeepsFreshInv(cfg, s, events[0]);
      RunsKeepTimerInv(cfg, Step(cfg, s, events[0]), events[1..]);
    }
  }

  /** The statement for callers: one timer at most, and polling never stalls. */
  lemma OneTimerAndNoStall(cfg: Config, events: seq<Event>)
    requires IsRun(cfg, INITIAL, events)
    ensures var s := Final(cfg, INITIAL, events);
            && |s.pending| <= 1
            && (forall t :: t in s.pending ==> s.timer == Some(t))
            && (s.timer.Some? ==> s.timer.value in s.pending || IsPolling(s, s.timer.value))
  {
    RunsKeepTimerInv(cfg, INITIAL, events);
    var s := Final(cfg, INITIAL, events);
    if s.timer.Some? {
      SmallKeys(s.pending, s.timer.value);
    }
  }

  lemma SmallKeys(m: map<nat, nat>, k: nat)
    requires m.Keys <= {k}
    ensures |m| <= 1
  {
    if k in m {
      assert m.Keys == {k};
    } else {
      assert m.Keys == {};
    }
    assert |m| == |m.Keys|;
  }

  // ----- every poll schedules the next

  /** A poll is under way and polling is on. */
  ghost predicate IsPoll(s: State, r: nat) {
    s.timer.Some? && r in s.refreshes && s.refreshes[r].origin.ByTimer?
  }

  /** How long to wait after a poll that has heard back: only known heights with work left call for the short interval. */
  function NextDelay(cfg: Config, phase: Phase): nat
    requires phase != AwaitStatus
  {
    match phase
    case Rejected => cfg.errorMs
    case AwaitRest(Heights(Some(local), Some(target))) =>
      if target > 0 && local < target then cfg.syncingMs else cfg.syncedMs
    case AwaitRest(_) => cfg.syncedMs
  }

  /** Whenever poll `r` ends in the run, that very step leaves one new timer pending, for the right delay. */
  ghost predicate SchedulesAtEnd(cfg: Config, s: State, events: seq<Event>, r: nat)
    requires r in s.refreshes
    requires IsRun(cfg, s, events)
    decreases events
  {
    events != [] ==>
      var s' := Step(cfg, s, events[0]);
      if r in s'.refreshes then SchedulesAtEnd(cfg, s', events[1..], r)
      else
        var phase := s.refreshes[r].phase;
        phase != AwaitStatus && s'.timer == Some(s.nextId) && s'.pending == map[s.nextId := NextDelay(cfg, phase)]
  }

  /** Without a stop, a step either leaves the poll under way or ends it with the next timer set. */
  lemma PollStep(cfg: Config, s: State, e: Event, r: nat)
    requires TimerInv(s) && FreshInv(s) && IsPoll(s, r)
    requires IsEnabled(s, e) && e != StopCall
    ensures var s' := Step(cfg, s, e);
            if r in s'.refreshes then IsPoll(s', r)
            else
              && s.refreshes[r].phase != AwaitStatus
              && s'.timer == Some(s.nextId)
              && s'.pending == map[s.nextId := NextDelay(cfg, s.refreshes[r].phase)]
  {
    match e {
      case RestArrives(q) =>
        var report := s.refreshes[q].phase.report;
        ScheduleKeepsTimerInv(
          s.(refreshes := s.refreshes - {q}, syncStatus := report,
             status := if IsComplete(report) then SYNCED else SYNCING),
          if IsSyncing(report) then cfg.syncingMs else cfg.syncedMs);
      case RejectionHandled(q) =>
        ScheduleKeepsTimerInv(s.(refreshes := s.refreshes - {q}), cfg.errorMs);
      case _ =>
    }
  }

  lemma {:induction false} PollSchedules(cfg: Config, s: State, events: seq<Event>, r: nat)
    requires TimerInv(s) && FreshInv(s) && IsPoll(s, r)
    requires IsRun(cfg, s, events) && StopCall !in events
    ensures SchedulesAtEnd(cfg, s, events, r)
    decreases events
  {
    if events != [] {
      assert events[0] in events && forall e :: e in events[1..] ==> e in events;
      var s' := Step(cfg, s, events[0]);
      PollStep(cfg, s, events[0], r);
      if r in s'.refreshes {
        StepKeepsTimerInv(cfg, s, events[0]);
        StepKeepsFreshInv(cfg, s, events[0]);
        PollSchedules(cfg, s', events[1..], r);
      }
    }
  }

  /**
   A poll met in any run, in any phase, and followed by any steps except a stop: when it ends,
   one timer is pending, after the syncing or synced interval if it completed and after the
   error interval if it failed.
   */
  lemma EveryPollSchedulesTheNext(cfg: Config, before: seq<Event>, after: seq<Event>, r: nat)
    requires IsRun(cfg, INITIAL, before)
    requires IsPoll(Final(cfg, INITIAL, before), r)
    requires IsRun(cfg, Final(cfg, INITIAL, before), after) && StopCall !in after
    ensures SchedulesAtEnd(cfg, Final(cfg, INITIAL, before), after, r)
  {
    RunsKeepTimerInv(cfg, INITIAL, before);
    PollSchedules(cfg, Final(cfg, INITIAL, before), after, r);
  }

  /**
   A poll that waits for the status can end in two steps, with any report or with a failure,
   and both endings leave the next timer pending.
   */
  lemma WaitingPollOutcomes(cfg: Config, before: seq<Event>, r: nat, report: SyncStatus)
    requires IsRun(cfg, INITIAL, before)
    requires var s := Final(cfg, INITIAL, before); IsPoll(s, r) && s.refreshes[r].phase == AwaitStatus
    ensures var s := Final(cfg, INITIAL, before);
            var done, failed := [StatusArrives(r, report), RestArrives(r)], [StatusFails(r), RejectionHandled(r)];
            && IsRun(cfg, s, done)
            && Final(cfg, s, done).pending == map[s.nextId := NextDelay(cfg, AwaitRest(report))]
            && IsRun(cfg, s, failed)
            && Final(cfg, s, failed).pending == map[s.nextId := cfg.errorMs]
  {
    var s := Final(cfg, INITIAL, before);
    RunsKeepTimerInv(cfg, INITIAL, before);
    TwoSteps(cfg, s, r, StatusArrives(r, report), RestArrives(r));
    TwoSteps(cfg, s, r, StatusFails(r), RejectionHandled(r));
  }

  lemma TwoSteps(cfg: Config, s: State, r: nat, first: Event, second: Event)
    requires TimerInv(s) && FreshInv(s) && IsPoll(s, r)
    requires IsEnabled(s, first) && first != StopCall && r in Step(cfg, s, first).refreshes
    requires var s' := Step(cfg, s, first);
             && s'.nextId == s.nextId
             && IsEnabled(s', second) && second != StopCall && r !in Step(cfg, s', second).refreshes
    ensures IsRun(cfg, s, [first, second])
    ensures var phase := Step(cfg, s, first).refreshes[r].phase;
            && phase != AwaitStatus
            && Final(cfg, s, [first, second]).pending == map[s.nextId := NextDelay(cfg, phase)]
  {
    var s' := Step(cfg, s, first);
    PollStep(cfg, s, first, r);
    StepKeepsTimerInv(cfg, s, first);
    StepKeepsFreshInv(cfg, s, first);
    PollStep(cfg, s', second, r);
    SingleStep(cfg, s', second);
    assert [first, second][1..] == [second];
  }

  // ----- what is published

  /** Synced exactly when both heights are known, the target is positive and it has been reached. */
  function StatusFor(report: SyncStatus): Status {
    match report
    case Heights(Some(local), Some(target)) => if target > 0 && local >= target then SYNCED else SYNCING
    case _ => SYNCING
  }

  /** A refresh that has its report keeps it until its second half is done. */
  lemma ReportStep(cfg: Config, s: State, e: Event, r: nat, report: SyncStatus)
    requires FreshInv(s) && r in s.refreshes && s.refreshes[r].phase == AwaitRest(report)
    requires IsEnabled(s, e) && e != RestArrives(r)
    ensures var s' := Step(cfg, s, e); r in s'.refreshes && s'.refreshes[r].phase == AwaitRest(report)
  {
  }

  lemma {:induction false} ReportIsKept(cfg: Config, s: State, events: seq<Event>, r: nat, report: SyncStatus)
    requires FreshInv(s) && r in s.refreshes && s.refreshes[r].phase == AwaitRest(report)
    requires IsRun(cfg, s, events) && RestArrives(r) !in events
    ensures var s' := Final(cfg, s, events);
            FreshInv(s') && r in s'.refreshes && s'.refreshes[r].phase == AwaitRest(report)
    decreases events
  {
    if events != [] {
      assert events[0] in events && forall e :: e in events[1..] ==> e in events;
      ReportStep(cfg, s, events[0], r, report);
      StepKeepsFreshInv(cfg, s, events[0]);
      ReportIsKept(cfg, Step(cfg, s, events[0]), events[1..], r, report);
    }
  }

  /**
   Whatever happens between the two halves of a refresh, its completion publishes the very
   report that it received, and the status that the heights in it call for.
   */
  lemma RefreshPublishesItsReport(
      cfg: Config, before: seq<Event>, r: nat, report: SyncStatus, between: seq<Event>)
    requires IsRun(cfg, INITIAL, before)
    requires IsEnabled(Final(cfg, INITIAL, before), StatusArrives(r, report))
    requires var s := Step(cfg, Final(cfg, INITIAL, before), StatusArrives(r, report));
             IsRun(cfg, s, between) && RestArrives(r) !in between
    ensures var s := Final(cfg, Step(cfg, Final(cfg, INITIAL, before), StatusArrives(r, report)), between);
            && IsEnabled(s, RestArrives(r))
            && var done := Step(cfg, s, RestArrives(r));
               done.syncStatus == report && done.status == StatusFor(report) && done.refreshes == s.refreshes - {r}
  {
    var s := Final(cfg, INITIAL, before);
    RunsKeepTimerInv(cfg, INITIAL, before);
    StepKeepsFreshInv(cfg, s, StatusArrives(r, report));
    ReportIsKept(cfg, Step(cfg, s, StatusArrives(r, report)), between, r, report);
  }

  /** The last published report: unknown until a refresh completes, and then that of the last to complete. */
  function LastReport(cfg: Config, s: State, events: seq<Event>): SyncStatus
    requires IsRun(cfg, s, events)
    decreases events
  {
    if events == [] then s.syncStatus
    else
      var last := events[|events| - 1];
      FrontIsRun(cfg, s, events);
      var front := events[..|events| - 1];
      if last.RestArrives? then Final(cfg, s, front).refreshes[last.refresh].phase.report
      else LastReport(cfg, s, front)
  }

  /** The status that the last deciding event left behind. */
  function LastStatus(cfg: Config, s: State, events: seq<Event>): Status
    requires IsRun(cfg, s, events)
    decreases events
  {
    if events == [] then s.status
    else
      var last := events[|events| - 1];
      FrontIsRun(cfg, s, events);
      var front := events[..|events| - 1];
      match last
      case RestArrives(r) => StatusFor(Final(cfg, s, front).refreshes[r].phase.report)
      case StopCall => STOPPED
      case StartFailed(_) => STOPPED
      case StartCall => if Final(cfg, s, front).timer == None then SYNCING else LastStatus(cfg, s, front)
      case _ => LastStatus(cfg, s, front)
  }

  lemma {:induction false} FrontIsRun(cfg: Config, s: State, events: seq<Event>)
    requires IsRun(cfg, s, events) && events != []
    ensures var front, last := events[..|events| - 1], events[|events| - 1];
            && IsRun(cfg, s, front)
            && IsEnabled(Final(cfg, s, front), last)
            && Final(cfg, s, events) == Step(cfg, Final(cfg, s, front), last)
    decreases events
  {
    if |events| > 1 {
      FrontIsRun(cfg, Step(cfg, s, events[0]), events[1..]);
      assert events[..|events| - 1][1..] == events[1..][..|events| - 2];
    }
  }

  /** Nothing else changes what is published: in every run, report and status are those of the last deciding event. */
  lemma {:induction false} PublishedIsLast(cfg: Config, events: seq<Event>)
    requires IsRun(cfg, INITIAL, events)
    ensures Final(cfg, INITIAL, events).syncStatus == LastReport(cfg, INITIAL, events)
    ensures Final(cfg, INITIAL, events).status == LastStatus(cfg, INITIAL, events)
    decreases events
  {
    if events != [] {
      FrontIsRun(cfg, INITIAL, events);
      PublishedIsLast(cfg, events[..|events| - 1]);
    }
  }

  // ----- starting, and refreshes that a caller asks for

  /** A start does nothing while polling is on; otherwise one call goes out, and its answer schedules a poll at once. */
  lemma StartOutcomes(cfg: Config, before: seq<Event>, call: nat)
    requires IsRun(cfg, INITIAL, before)
    ensures var s := Final(cfg, INITIAL, before);
            && (s.timer.Some? ==> Step(cfg, s, StartCall) == s)
            && (s.timer.None? ==>
                  && Step(cfg, s, StartCall).starts == s.starts + {s.nextId} && s.nextId !in s.starts
                  && Step(cfg, s, StartCall).timer == None && Step(cfg, s, StartCall).pending == map[])
            && (call in s.starts ==>
                  && Step(cfg, s, StartDone(call)).starts == Step(cfg, s, StartFailed(call)).starts == s.starts - {call}
                  && Step(cfg, s, StartDone(call)).timer == Some(s.nextId)
                  && Step(cfg, s, StartDone(call)).pending == map[s.nextId := 0]
                  && Step(cfg, s, StartFailed(call)).timer == s.timer
                  && Step(cfg, s, StartFailed(call)).pending == s.pending)
  {
    RunsKeepTimerInv(cfg, INITIAL, before);
    var s := Final(cfg, INITIAL, before);
    if call in s.starts {
      ScheduleKeepsTimerInv(s.(starts := s.starts - {call}), 0);
    }
  }

  /** A timer that fires starts exactly one poll and stays named. */
  lemma TimerStartsPoll(cfg: Config, before: seq<Event>, t: nat)
    requires IsRun(cfg, INITIAL, before)
    requires t in Final(cfg, INITIAL, before).pending
    ensures var s := Final(cfg, INITIAL, before);
            var s' := Step(cfg, s, TimerFires(t));
            && s'.timer == s.timer == Some(t) && s'.pending == map[]
            && s.nextId !in s.refreshes
            && s'.refreshes == s.refreshes[s.nextId := Refresh(ByTimer(t), AwaitStatus)]
  {
    RunsKeepTimerInv(cfg, INITIAL, before);
    assert Final(cfg, INITIAL, before).pending.Keys == {t};
  }

  /** Asking for a refresh, and the failure of one asked for, leave polling and everything published alone. */
  lemma CallerRefreshIsQuiet(cfg: Config, before: seq<Event>, r: nat)
    requires IsRun(cfg, INITIAL, before)
    ensures var s := Final(cfg, INITIAL, before);
            && s.nextId !in s.refreshes
            && Step(cfg, s, RefreshCall) ==
                 s.(refreshes := s.refreshes[s.nextId := Refresh(ByCaller, AwaitStatus)], nextId := s.nextId + 1)
            && (r in s.refreshes && s.refreshes[r] == Refresh(ByCaller, Rejected) ==>
                  Step(cfg, s, RejectionHandled(r)) == s.(refreshes := s.refreshes - {r}))
  {
    RunsKeepTimerInv(cfg, INITIAL, before);
  }

  // ----- stopping

  predicate HasStartCall(events: seq<Event>) {
    StartCall in events
  }

  /** Polling is off and nothing is scheduled. */
  ghost predicate IsOff(s: State) {
    s.timer == None && s.pending == map[]
  }

  /** The backend is told to cancel exactly if polling was on or the status was another. */
  lemma StopTurnsOff(cfg: Config, events: seq<Event>)
    requires IsRun(cfg, INITIAL, events)
    ensures var s := Final(cfg, INITIAL, events);
            Step(cfg, s, StopCall).stops ==
            if s.timer.Some? || s.status != STOPPED then s.stops + {s.nextId} else s.stops
    ensures var s := Final(cfg, INITIAL, events);
            s.nextId !in s.stops && Step(cfg, s, StopCall).refreshes == s.refreshes
            && Step(cfg, s, StopCall).starts == s.starts
    ensures IsOff(Step(cfg, Final(cfg, INITIAL, events), StopCall))
    ensures Step(cfg, Final(cfg, INITIAL, events), StopCall).status == STOPPED
  {
    RunsKeepTimerInv(cfg, INITIAL, events);
  }

  lemma {:induction false} StaysOff(cfg: Config, s: State, events: seq<Event>)
    requires IsOff(s) && s.starts == {}
    requires IsRun(cfg, s, events) && !HasStartCall(events)
    ensures IsOff(Final(cfg, s, events)) && Final(cfg, s, events).starts == {}
    decreases events
  {
    if events != [] {
      assert events[0] in events && forall e :: e in events[1..] ==> e in events;
      StaysOff(cfg, Step(cfg, s, events[0]), events[1..]);
    }
  }

  /**
   Once polling is off it stays off until the next start in every run, exactly when no
   start is still under way; a start in flight undoes the stop when it completes.
   */
  lemma StopHoldsExactly(cfg: Config, s: State)
    requires IsOff(s)
    ensures (forall events :: IsRun(cfg, s, events) && !HasStartCall(events) ==> IsOff(Final(cfg, s, events)))
            <==> s.starts == {}
  {
    if s.starts == {} {
      forall events | IsRun(cfg, s, events) && !HasStartCall(events)
        ensures IsOff(Final(cfg, s, events))
      {
        StaysOff(cfg, s, events);
      }
    } else {
      var c :| c in s.starts;
      var events := [StartDone(c)];
      SingleStep(cfg, s, StartDone(c));
      assert !HasStartCall(events);
      assert !IsOff(Final(cfg, s, events));
    }
  }

  /** The shortest such run: start, stop, and then the start completes. */
  lemma StopDuringStartIsUndone(cfg: Config)
    ensures var events := [StartCall, StopCall, StartDone(0)];
            && IsRun(cfg, INITIAL, events)
            && Final(cfg, INITIAL, events).timer.Some?
            && Final(cfg, INITIAL, events).status == STOPPED
  {
    var events := [StartCall, StopCall, StartDone(0)];
    assert events[1..] == [StopCall, StartDone(0)];
    assert events[1..][1..] == [StartDone(0)];
    var s1 := Step(cfg, INITIAL, StartCall);
    var s2 := Step(cfg, s1, StopCall);
    assert 0 in s2.starts;
    SingleStep(cfg, s2, StartDone(0));
    assert IsRun(cfg, s1, events[1..]);
  }

  // ----- the published status after a stop

  /** Runs in which the caller asks for nothing new. */
  predicate IsQuiet(events: seq<Event>) {
    StartCall !in events && RefreshCall !in events
  }

  /** No refresh under way can still publish a report. */
  ghost predicate NoneCanPublish(s: State) {
    forall r :: r in s.refreshes ==> s.refreshes[r].phase == Rejected
  }

  lemma {:induction false} StaysStopped(cfg: Config, s: State, events: seq<Event>)
    requires IsOff(s) && s.starts == {} && s.status == STOPPED && NoneCanPublish(s)
    requires IsRun(cfg, s, events) && IsQuiet(events)
    ensures Final(cfg, s, events).status == STOPPED
    decreases events
  {
    if events != [] {
      assert events[0] in events && forall e :: e in events[1..] ==> e in events;
      StaysStopped(cfg, Step(cfg, s, events[0]), events[1..]);
    }
  }

  /**
   After a stop with no start under way the status stays at stopped, whatever still
   settles, exactly when no refresh under way can publish; otherwise it is overwritten.
   */
  lemma StoppedStatusHoldsExactly(cfg: Config, s: State)
    requires IsOff(s) && s.starts == {} && s.status == STOPPED
    ensures (forall events :: IsRun(cfg, s, events) && IsQuiet(events) ==> Final(cfg, s, events).status == STOPPED)
            <==> NoneCanPublish(s)
  {
    if NoneCanPublish(s) {
      forall events | IsRun(cfg, s, events) && IsQuiet(events)
        ensures Final(cfg, s, events).status == STOPPED
      {
        StaysStopped(cfg, s, events);
      }
    } else {
      var r :| r in s.refreshes && s.refreshes[r].phase != Rejected;
      var events := PublishingRun(cfg, s, r);
      assert Final(cfg, s, events).status != STOPPED;
    }
  }

  lemma PublishingRun(cfg: Config, s: State, r: nat) returns (events: seq<Event>)
    requires r in s.refreshes && s.refreshes[r].phase != Rejected
    ensures IsRun(cfg, s, events) && IsQuiet(events)
    ensures Final(cfg, s, events).status != STOPPED
  {
    if s.refreshes[r].phase == AwaitStatus {
      events := [StatusArrives(r, Unknown), RestArrives(r)];
      assert events[1..] == [RestArrives(r)];
      assert events[1..][1..] == [];
      var s1 := Step(cfg, s, events[0]);
      SingleStep(cfg, s1, RestArrives(r));
    } else {
      events := [RestArrives(r)];
      SingleStep(cfg, s, RestArrives(r));
    }
  }
}
