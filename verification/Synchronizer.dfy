/**
 The polling synchronizer as a protocol of atomic steps: what runs between one await and the
 next. Timers, refreshes and calls under way belong to the runtime around it.
 */
module Synchronizer {
  import opened Base

  datatype Status = STOPPED | SYNCING | SYNCED

  /** What the backend reports; either height may be missing. */
  datatype SyncStatus = Unknown | Heights(local: Option<int>, target: Option<int>)

  datatype Config = Config(syncingMs: nat, syncedMs: nat, errorMs: nat)

  datatype Origin = ByCaller | ByTimer(timer: nat)

  /** A refresh awaits the sync status, then the rest; a rejection is caught one step later. */
  datatype Phase = AwaitStatus | AwaitRest(report: SyncStatus) | Rejected

  datatype Refresh = Refresh(origin: Origin, phase: Phase)

  datatype State = State(
    status: Status,
    syncStatus: SyncStatus,
    timer: Option<nat>,
    pending: map<nat, nat>,
    refreshes: map<nat, Refresh>,
    starts: set<nat>,
    stops: set<nat>,
    nextId: nat)

  datatype Event =
    | StartCall
    | StartDone(call: nat)
    | StartFailed(call: nat)
    | StopCall
    | StopSettled(call: nat)
    | RefreshCall
    | TimerFires(timer: nat)
    | StatusArrives(refresh: nat, report: SyncStatus)
    | StatusFails(refresh: nat)
    | RestArrives(refresh: nat)
    | RejectionHandled(refresh: nat)

  const INITIAL := State(STOPPED, Unknown, None, map[], map[], {}, {}, 0)

  predicate IsComplete(report: SyncStatus) {
    && report.Heights? && report.local.Some? && report.target.Some?
    && report.target.value > 0 && report.local.value >= report.target.value
  }

  predicate IsSyncing(report: SyncStatus) {
    && report.Heights? && report.local.Some? && report.target.Some?
    && report.target.value > 0 && report.local.value < report.target.value
  }

  predicate IsEnabled(s: State, e: Event) {
    match e
    case StartCall => true
    case StartDone(c) => c in s.starts
    case StartFailed(c) => c in s.starts
    case StopCall => true
    case StopSettled(c) => c in s.stops
    case RefreshCall => true
    case TimerFires(t) => t in s.pending
    case StatusArrives(r, _) => r in s.refreshes && s.refreshes[r].phase == AwaitStatus
    case StatusFails(r) => r in s.refreshes && s.refreshes[r].phase == AwaitStatus
    case RestArrives(r) => r in s.refreshes && s.refreshes[r].phase.AwaitRest?
    case RejectionHandled(r) => r in s.refreshes && s.refreshes[r].phase == Rejected
  }

  /** Replaces whatever timer is named, pending or fired, by a new pending one. */
  function Schedule(s: State, delayMs: nat): State {
    var kept := if s.timer.Some? then s.pending - {s.timer.value} else s.pending;
    s.(timer := Some(s.nextId), pending := kept[s.nextId := delayMs], nextId := s.nextId + 1)
  }

  function BeginRefresh(s: State, origin: Origin): State {
    s.(refreshes := s.refreshes[s.nextId := Refresh(origin, AwaitStatus)], nextId := s.nextId + 1)
  }

  function Stopped(s: State): State {
    var cancels := s.timer.Some? || s.status != STOPPED;
    s.(status := STOPPED,
       timer := None,
       pending := if s.timer.Some? then s.pending - {s.timer.value} else s.pending,
       stops := if cancels then s.stops + {s.nextId} else s.stops,
       nextId := s.nextId + 1)
  }

  /** A completed refresh publishes its report and, if polling is on, schedules the next poll. */
  function Completed(cfg: Config, s: State, r: nat): State
    requires r in s.refreshes && s.refreshes[r].phase.AwaitRest?
  {
    var report := s.refreshes[r].phase.report;
    var s' := s.(
      refreshes := s.refreshes - {r},
      syncStatus := report,
      status := if IsComplete(report) then SYNCED else SYNCING);
    if s.timer.None? then s'
    else Schedule(s', if IsSyncing(report) then cfg.syncingMs else cfg.syncedMs)
  }

  /** A failed poll tries again after the error interval; a caller's failed refresh just ends. */
  function Caught(cfg: Config, s: State, r: nat): State
    requires r in s.refreshes
  {
    var s' := s.(refreshes := s.refreshes - {r});
    if s.refreshes[r].origin.ByTimer? && s.timer.Some? then Schedule(s', cfg.errorMs) else s'
  }

  function Step(cfg: Config, s: State, e: Event): State
    requires IsEnabled(s, e)
  {
    match e
    case StartCall =>
      if s.timer.Some? then s
      else s.(status := SYNCING, starts := s.starts + {s.nextId}, nextId := s.nextId + 1)
    case StartDone(c) => Schedule(s.(starts := s.starts - {c}), 0)
    case StartFailed(c) => s.(starts := s.starts - {c}, status := STOPPED)
    case StopCall => Stopped(s)
    case StopSettled(c) => s.(stops := s.stops - {c})
    case RefreshCall => BeginRefresh(s, ByCaller)
    case TimerFires(t) => BeginRefresh(s.(pending := s.pending - {t}), ByTimer(t))
    case StatusArrives(r, report) => s.(refreshes := s.refreshes[r := s.refreshes[r].(phase := AwaitRest(report))])
    case StatusFails(r) => s.(refreshes := s.refreshes[r := s.refreshes[r].(phase := Rejected)])
    case RestArrives(r) => Completed(cfg, s, r)
    case RejectionHandled(r) => Caught(cfg, s, r)
  }

  // ----- the object

  class PirateWalletSynchronizer {
    const config: Config
    var status: Status
    var syncStatus: SyncStatus
    var timer: Option<nat>
    var pending: map<nat, nat>
    var refreshes: map<nat, Refresh>
    var starts: set<nat>
    var stops: set<nat>
    var nextId: nat

    function View(): State
      reads this
    {
      State(status, syncStatus, timer, pending, refreshes, starts, stops, nextId)
    }

    constructor (config: Config)
      ensures View() == INITIAL && this.config == config
    {
      this.config := config;
      status, syncStatus, timer, nextId := STOPPED, Unknown, None, 0;
      pending, refreshes, starts, stops := map[], map[], {}, {};
    }

    method SetTimer(delayMs: nat)
      modifies this
      ensures View() == Schedule(old(View()), delayMs)
    {
      ClearTimer();
      pending := pending[nextId := delayMs];
      timer := Some(nextId);
      nextId := nextId + 1;
    }

    method ClearTimer()
      modifies this`pending
      ensures pending == if timer.Some? then old(pending) - {timer.value} else old(pending)
    {
      if timer.Some? {
        pending := pending - {timer.value};
      }
    }

    method Start()
      modifies this
      ensures View() == Step(config, old(View()), StartCall)
    {
      if timer.Some? {
        return;
      }
      status := SYNCING;
      starts := starts + {nextId};
      nextId := nextId + 1;
    }

    /** After the backend answered the call to start. */
    method ResumeStart(call: nat, ok: bool)
      requires call in starts
      modifies this
      ensures View() == Step(config, old(View()), if ok then StartDone(call) else StartFailed(call))
    {
      starts := starts - {call};
      if ok {
        SetTimer(0);
      } else {
        status := STOPPED;
      }
    }

    method Stop()
      modifies this
      ensures View() == Step(config, old(View()), StopCall)
    {
      var cancels := timer.Some? || status != STOPPED;
      if timer.Some? {
        ClearTimer();
        timer := None;
      }
      status := STOPPED;
      if cancels {
        stops := stops + {nextId};
      }
      nextId := nextId + 1;
    }

    method FireTimer(t: nat)
      requires t in pending
      modifies this
      ensures View() == Step(config, old(View()), TimerFires(t))
    {
      pending := pending - {t};
      refreshes := refreshes[nextId := Refresh(ByTimer(t), AwaitStatus)];
      nextId := nextId + 1;
    }

    method BeginCallerRefresh()
      modifies this
      ensures View() == Step(config, old(View()), RefreshCall)
    {
      refreshes := refreshes[nextId := Refresh(ByCaller, AwaitStatus)];
      nextId := nextId + 1;
    }

    /** The sync status arrived or was refused. */
    method ReceiveStatus(r: nat, report: Option<SyncStatus>)
      requires r in refreshes && refreshes[r].phase == AwaitStatus
      modifies this`refreshes
      ensures View() == Step(config, old(View()),
                if report.Some? then StatusArrives(r, report.value) else StatusFails(r))
    {
      var phase := if report.Some? then AwaitRest(report.value) else Rejected;
      refreshes := refreshes[r := refreshes[r].(phase := phase)];
    }

    /** The second half of a refresh, once everything it awaited is there. */
    method FinishRefresh(r: nat)
      requires r in refreshes && refreshes[r].phase.AwaitRest?
      modifies this
      ensures View() == Step(config, old(View()), RestArrives(r))
      ensures syncStatus == old(refreshes[r].phase.report)
      ensures status == match syncStatus
                        case Heights(Some(local), Some(target)) =>
                          if target > 0 && local >= target then SYNCED else SYNCING
                        case _ => SYNCING
    {
      var report := refreshes[r].phase.report;
      refreshes := refreshes - {r};
      syncStatus := report;
      status := if IsComplete(report) then SYNCED else SYNCING;
      if timer.Some? {
        SetTimer(if IsSyncing(report) then config.syncingMs else config.syncedMs);
      }
    }

    /** The handler attached to a poll, or the end of a caller's failed refresh. */
    method HandleRejection(r: nat)
      requires r in refreshes && refreshes[r].phase == Rejected
      modifies this
      ensures View() == Step(config, old(View()), RejectionHandled(r))
    {
      var origin := refreshes[r].origin;
      refreshes := refreshes - {r};
      if origin.ByTimer? && timer.Some? {
        SetTimer(config.errorMs);
      }
    }
  }
}
