/** The log files as a window over the history of entries. */
module DebugLogWindow {
  import opened Base
  import opened DebugLog

  /** Backup `n` down to the current file, oldest entry first. */
  function Window(files: Files, n: nat): seq<Entry> {
    if n == 0 then File(files, 0) else File(files, n) + Window(files, n - 1)
  }

  ghost predicate IsSuffix(w: seq<Entry>, history: seq<Entry>) {
    |w| <= |history| && forall i :: 0 <= i < |w| ==> w[i] == history[|history| - |w| + i]
  }

  /** Entries that can be kept at all. */
  predicate Fits(cfg: Config, e: Entry) {
    |e| <= cfg.maxBytes
  }

  // ----- runs

  function Final(cfg: Config, log: Log, ops: seq<Op>): Log
    decreases ops
  {
    if ops == [] then log else Final(cfg, Step(cfg, log, ops[0]), ops[1..])
  }

  /** The entries of acceptable size accepted since the log was last cleared, after those in `past`. */
  function History(cfg: Config, enabled: bool, past: seq<Entry>, ops: seq<Op>): seq<Entry>
    decreases ops
  {
    if ops == [] then past
    else
      match ops[0]
      case Append(e) => History(cfg, enabled, if enabled && Fits(cfg, e) then past + [e] else past, ops[1..])
      case Clear => History(cfg, enabled, [], ops[1..])
      case SetEnabled(on) => History(cfg, on, if on then past else [], ops[1..])
  }

  // ----- the invariant

  /** All slots are in range and no file is too large. */
  ghost predicate IsBounded(cfg: Config, files: Files) {
    forall i :: i in files ==> i <= cfg.backups && Size(files[i]) <= cfg.maxBytes
  }

  /** Files that agree in the slots concerned show the same window. */
  lemma {:induction false} WindowAgrees(a: Files, b: Files, n: nat)
    requires forall i: nat :: i <= n ==> File(a, i) == File(b, i)
    ensures Window(a, n) == Window(b, n)
  {
    if n > 0 {
      WindowAgrees(a, b, n - 1);
    }
  }

  /** Shifting moves the window back by one slot and leaves the current file empty. */
  lemma {:induction false} WindowShifts(files: Files, backups: nat, n: nat)
    requires 0 < n <= backups
    ensures Window(RenamedDown(files, backups), n) == Window(files, n - 1)
  {
    RenamesShift(files, backups, 0);
    RenamesShift(files, backups, n);
    if n == 1 {
      assert File(files, 0) + [] == File(files, 0);
    } else {
      WindowShifts(files, backups, n - 1);
    }
  }

  /** Writing to the current file extends the window at its end. */
  lemma {:induction false} WindowAppends(files: Files, e: Entry, n: nat)
    ensures Window(files[0 := File(files, 0) + [e]], n) == Window(files, n) + [e]
  {
    var files' := files[0 := File(files, 0) + [e]];
    if n > 0 {
      WindowAppends(files, e, n - 1);
      assert File(files', n) == File(files, n);
    }
  }

  /** The window without its oldest slot. */
  function Newer(cfg: Config, files: Files): seq<Entry> {
    if cfg.backups == 0 then [] else Window(files, cfg.backups - 1)
  }

  lemma NewerIsSuffix(cfg: Config, files: Files)
    ensures IsSuffix(Newer(cfg, files), Window(files, cfg.backups))
  {
  }

  /** Where shifted files come from. */
  lemma ShiftedFrom(cfg: Config, files: Files, i: nat)
    requires IsBounded(cfg, files) && cfg.backups > 0
    ensures i in RenamedDown(files, cfg.backups) <==> 0 < i <= cfg.backups && i - 1 in files
    ensures i in RenamedDown(files, cfg.backups) ==> RenamedDown(files, cfg.backups)[i] == files[i - 1]
  {
    RenamesShift(files, cfg.backups, i);
  }

  /** A rotation of files within bounds drops exactly the oldest slot. */
  lemma RotationDropsOldest(cfg: Config, files: Files)
    requires IsBounded(cfg, files)
    ensures IsBounded(cfg, Rotated(cfg, files))
    ensures 0 !in Rotated(cfg, files)
    ensures Window(Rotated(cfg, files), cfg.backups) == Newer(cfg, files)
  {
    var rotated := Rotated(cfg, files);
    if cfg.backups > 0 {
      assert rotated == RenamedDown(files, cfg.backups);
      WindowShifts(files, cfg.backups, cfg.backups);
      ShiftedFrom(cfg, files, 0);
      forall i | i in rotated ensures i <= cfg.backups && Size(rotated[i]) <= cfg.maxBytes {
        ShiftedFrom(cfg, files, i);
      }
    }
  }

  lemma OpeningShowsTheSame(cfg: Config, files: Files)
    requires IsBounded(cfg, files)
    ensures IsBounded(cfg, Opened(files))
    ensures forall n: nat :: Window(Opened(files), n) == Window(files, n)
  {
    forall n: nat ensures Window(Opened(files), n) == Window(files, n) {
      WindowAgrees(Opened(files), files, n);
    }
  }

  /** Whether an entry of this size makes the log rotate. */
  predicate MustRotate(cfg: Config, files: Files, upcoming: nat) {
    Size(File(files, 0)) + upcoming > cfg.maxBytes
  }

  /** What making room does: nothing, or dropping the oldest slot and starting an empty file. */
  lemma PreparationWindow(cfg: Config, files: Files, upcoming: nat)
    requires cfg.Valid() && IsBounded(cfg, files)
    ensures var ready := Prepared(cfg, files, upcoming);
            && IsBounded(cfg, ready)
            && Window(ready, cfg.backups) ==
                 (if MustRotate(cfg, files, upcoming) then Newer(cfg, files) else Window(files, cfg.backups))
            && File(ready, 0) == if MustRotate(cfg, files, upcoming) then [] else File(files, 0)
  {
    OpeningShowsTheSame(cfg, files);
    if MustRotate(cfg, files, upcoming) {
      RotationDropsOldest(cfg, Opened(files));
      OpeningShowsTheSame(cfg, Rotated(cfg, Opened(files)));
    }
  }

  /** Discarding an entry that was too large leaves what was there before it. */
  lemma OversizedIsDiscarded(cfg: Config, ready: Files, e: Entry)
    requires IsBounded(cfg, ready)
    requires File(ready, 0) == [] && !Fits(cfg, e)
    ensures IsBounded(cfg, Capped(cfg, ready[0 := [e]]))
    ensures Window(Capped(cfg, ready[0 := [e]]), cfg.backups) == Window(ready, cfg.backups)
  {
    SizeOfOne(e);
    WindowAgrees(Capped(cfg, ready[0 := [e]]), ready, cfg.backups);
  }

  /**
   One write: the window loses at most its oldest slot, and then gains the entry at its
   end, unless the entry is larger than a file may be.
   */
  lemma WriteWindow(cfg: Config, files: Files, e: Entry)
    requires cfg.Valid() && IsBounded(cfg, files)
    ensures IsBounded(cfg, Written(cfg, files, e))
    ensures Window(Written(cfg, files, e), cfg.backups) ==
            (if MustRotate(cfg, files, |e|) then Newer(cfg, files) else Window(files, cfg.backups))
            + if Fits(cfg, e) then [e] else []
  {
    var ready := Prepared(cfg, files, |e|);
    PreparationWindow(cfg, files, |e|);
    SizeConcat(File(ready, 0), [e]);
    SizeOfOne(e);
    if Fits(cfg, e) {
      WindowAppends(ready, e, cfg.backups);
    } else {
      assert [] + [e] == [e];
      OversizedIsDiscarded(cfg, ready, e);
    }
  }

  /** Both halves of the promise: bounded files, and a window onto the history's end. */
  ghost predicate IsWindowOf(cfg: Config, files: Files, history: seq<Entry>) {
    IsBounded(cfg, files) && IsSuffix(Window(files, cfg.backups), history)
  }

  lemma SuffixGrows(w: seq<Entry>, history: seq<Entry>, e: Entry)
    requires IsSuffix(w, history)
    ensures IsSuffix(w + [e], history + [e])
  {
  }

  lemma SuffixOfSuffix(v: seq<Entry>, w: seq<Entry>, history: seq<Entry>)
    requires IsSuffix(v, w) && IsSuffix(w, history)
    ensures IsSuffix(v, history)
  {
  }

  lemma WriteKeepsWindow(cfg: Config, files: Files, history: seq<Entry>, e: Entry)
    requires cfg.Valid() && IsWindowOf(cfg, files, history)
    ensures IsWindowOf(cfg, Written(cfg, files, e), if Fits(cfg, e) then history + [e] else history)
  {
    WriteWindow(cfg, files, e);
    var w := Window(files, cfg.backups);
    var kept := if MustRotate(cfg, files, |e|) then Newer(cfg, files) else w;
    NewerIsSuffix(cfg, files);
    SuffixOfSuffix(kept, w, history);
    if Fits(cfg, e) {
      SuffixGrows(kept, history, e);
    } else {
      assert kept + [] == kept;
    }
  }

  lemma {:induction false} WindowOfNothing(n: nat)
    ensures Window(map[], n) == []
  {
    if n > 0 {
      WindowOfNothing(n - 1);
    }
  }

  lemma ClearingEmpties(cfg: Config, files: Files)
    requires cfg.Valid() && IsBounded(cfg, files)
    ensures Cleared(files) == map[]
    ensures IsWindowOf(cfg, Cleared(files), [])
  {
    assert Cleared(files) == map[];
    WindowOfNothing(cfg.backups);
  }

  /** After any sequence of operations the files show the end of the history, whole and in order. */
  lemma {:induction false} RunsKeepWindow(cfg: Config, log: Log, past: seq<Entry>, ops: seq<Op>)
    requires cfg.Valid() && IsWindowOf(cfg, log.files, past)
    ensures IsWindowOf(cfg, Final(cfg, log, ops).files, History(cfg, log.enabled, past, ops))
    decreases ops
  {
    if ops != [] {
      ClearingEmpties(cfg, log.files);
      match ops[0] {
        case Append(e) =>
          WriteKeepsWindow(cfg, log.files, past, e);
          RunsKeepWindow(cfg, Step(cfg, log, ops[0]), if log.enabled && Fits(cfg, e) then past + [e] else past, ops[1..]);
        case Clear =>
          RunsKeepWindow(cfg, Step(cfg, log, ops[0]), [], ops[1..]);
        case SetEnabled(on) =>
          RunsKeepWindow(cfg, Step(cfg, log, ops[0]), if on then past else [], ops[1..]);
      }
    }
  }

  // ----- how much is retained

  /** Each backup and the file after it together exceed the limit, and no slot is left out. */
  ghost predicate IsPacked(cfg: Config, files: Files) {
    forall i :: i in files && i > 0 ==>
      i - 1 in files && Size(files[i]) + Size(files[i - 1]) > cfg.maxBytes
  }

  /** Nothing is lost until the last slot is in use. */
  ghost predicate IsRetained(cfg: Config, files: Files, history: seq<Entry>) {
    && IsWindowOf(cfg, files, history)
    && IsPacked(cfg, files)
    && (Window(files, cfg.backups) == history || cfg.backups in files)
  }

  /** The files that an entry which fits is written to. */
  lemma PreparedForm(cfg: Config, files: Files, upcoming: nat)
    requires cfg.Valid() && IsBounded(cfg, files) && upcoming <= cfg.maxBytes
    ensures Prepared(cfg, files, upcoming) ==
            if !MustRotate(cfg, files, upcoming) then Opened(files)
            else if cfg.backups == 0 then files[0 := []]
            else RenamedDown(files, cfg.backups)[0 := []]
  {
    if MustRotate(cfg, files, upcoming) {
      assert 0 in files && Opened(files) == files;
      RotationDropsOldest(cfg, files);
      assert Opened(Rotated(cfg, files)) == Rotated(cfg, files)[0 := []];
      assert (files - {0})[0 := []] == files[0 := []];
    }
  }

  /** The files after a write of an entry that fits. */
  lemma WrittenForm(cfg: Config, files: Files, e: Entry)
    requires cfg.Valid() && IsBounded(cfg, files) && Fits(cfg, e)
    ensures Written(cfg, files, e) ==
            if !MustRotate(cfg, files, |e|) then files[0 := File(files, 0) + [e]]
            else if cfg.backups == 0 then files[0 := [e]]
            else RenamedDown(files, cfg.backups)[0 := [e]]
  {
    PreparedForm(cfg, files, |e|);
    var ready := Prepared(cfg, files, |e|);
    SizeConcat(File(ready, 0), [e]);
    SizeOfOne(e);
    assert [] + [e] == [e];
    assert Written(cfg, files, e) == ready[0 := File(ready, 0) + [e]];
  }

  lemma ShiftKeepsPacked(cfg: Config, files: Files, e: Entry)
    requires IsBounded(cfg, files) && IsPacked(cfg, files)
    requires cfg.backups > 0 && MustRotate(cfg, files, |e|)
    ensures IsPacked(cfg, RenamedDown(files, cfg.backups)[0 := [e]])
  {
    var shifted := RenamedDown(files, cfg.backups);
    var written := shifted[0 := [e]];
    SizeOfOne(e);
    forall i | i in written && i > 0
      ensures i - 1 in written && Size(written[i]) + Size(written[i - 1]) > cfg.maxBytes
    {
      ShiftedFrom(cfg, files, i);
      ShiftedFrom(cfg, files, i - 1);
    }
  }

  lemma WriteKeepsPacked(cfg: Config, files: Files, e: Entry)
    requires cfg.Valid() && IsBounded(cfg, files) && IsPacked(cfg, files)
    requires Fits(cfg, e)
    ensures IsPacked(cfg, Written(cfg, files, e))
    ensures cfg.backups in files ==> cfg.backups in Written(cfg, files, e)
  {
    WrittenForm(cfg, files, e);
    if !MustRotate(cfg, files, |e|) {
      SizeConcat(File(files, 0), [e]);
    } else if cfg.backups > 0 {
      ShiftKeepsPacked(cfg, files, e);
      ShiftedFrom(cfg, files, cfg.backups);
    }
  }

  lemma {:induction false} AbsentAbove(files: Files, n: nat, k: nat)
    requires k <= n
    requires forall i :: i in files ==> i <= k
    ensures Window(files, n) == Window(files, k)
    decreases n
  {
    if k < n {
      AbsentAbove(files, n - 1, k);
      assert [] + Window(files, n - 1) == Window(files, n - 1);
    }
  }

  /** Rotating while the last slot is free drops nothing. */
  lemma FreeSlotDropsNothing(cfg: Config, files: Files)
    requires IsBounded(cfg, files) && cfg.backups > 0 && cfg.backups !in files
    ensures Newer(cfg, files) == Window(files, cfg.backups)
  {
    AbsentAbove(files, cfg.backups, cfg.backups - 1);
  }

  lemma WriteKeepsRetained(cfg: Config, files: Files, history: seq<Entry>, e: Entry, after: seq<Entry>)
    requires cfg.Valid() && IsRetained(cfg, files, history) && Fits(cfg, e)
    requires after == history + [e]
    ensures IsRetained(cfg, Written(cfg, files, e), after)
  {
    WriteKeepsWindow(cfg, files, history, e);
    WriteKeepsPacked(cfg, files, e);
    if cfg.backups !in files {
      WriteWindow(cfg, files, e);
      if cfg.backups > 0 {
        FreeSlotDropsNothing(cfg, files);
      } else {
        WrittenForm(cfg, files, e);
      }
    }
  }

  function AllBytes(files: Files, n: nat): nat {
    if n == 0 then Size(File(files, 0)) else Size(File(files, n)) + AllBytes(files, n - 1)
  }

  lemma {:induction false} AllBytesIsWindowSize(files: Files, n: nat)
    ensures AllBytes(files, n) == Size(Window(files, n))
  {
    if n > 0 {
      AllBytesIsWindowSize(files, n - 1);
      SizeConcat(File(files, n), Window(files, n - 1));
    }
  }

  /** One file's limit for every pair of slots up to `n`. */
  function PairBytes(n: nat, m: nat): nat {
    if n == 0 then 0 else if n == 1 then m else PairBytes(n - 2, m) + m
  }

  lemma {:induction false} PairBytesIs(n: nat, m: nat)
    ensures PairBytes(n, m) == (n + 1) / 2 * m
  {
    if n > 1 {
      PairBytesIs(n - 2, m);
      assert (n + 1) / 2 == (n - 2 + 1) / 2 + 1;
    } else if n == 1 {
      assert (n + 1) / 2 == 1;
    } else {
      assert (n + 1) / 2 == 0;
    }
  }

  /** Packed files fill at least every other slot. */
  lemma {:induction false} PackedBytes(cfg: Config, files: Files, n: nat)
    requires IsPacked(cfg, files) && n in files
    ensures AllBytes(files, n) >= PairBytes(n, cfg.maxBytes)
    decreases n
  {
    if n > 1 {
      assert n - 1 in files;
      PackedBytes(cfg, files, n - 2);
    }
  }

  /** Every entry accepted since the log was last cleared fits into a file; `sofar` speaks of those before. */
  predicate AllFit(cfg: Config, enabled: bool, sofar: bool, ops: seq<Op>)
    decreases ops
  {
    if ops == [] then sofar
    else
      match ops[0]
      case Append(e) => AllFit(cfg, enabled, sofar && (enabled ==> Fits(cfg, e)), ops[1..])
      case Clear => AllFit(cfg, enabled, true, ops[1..])
      case SetEnabled(on) => AllFit(cfg, on, sofar || !on, ops[1..])
  }

  lemma NothingIsRetained(cfg: Config)
    ensures IsRetained(cfg, map[], [])
  {
    WindowOfNothing(cfg.backups);
  }

  lemma {:induction false} RunsKeepRetained(cfg: Config, log: Log, past: seq<Entry>, sofar: bool, ops: seq<Op>)
    requires cfg.Valid() && IsWindowOf(cfg, log.files, past)
    requires sofar ==> IsRetained(cfg, log.files, past)
    requires AllFit(cfg, log.enabled, sofar, ops)
    ensures IsRetained(cfg, Final(cfg, log, ops).files, History(cfg, log.enabled, past, ops))
    decreases ops
  {
    if ops != [] {
      ClearingEmpties(cfg, log.files);
      NothingIsRetained(cfg);
      match ops[0] {
        case Append(e) =>
          var past' := if log.enabled && Fits(cfg, e) then past + [e] else past;
          WriteKeepsWindow(cfg, log.files, past, e);
          if sofar && log.enabled && Fits(cfg, e) {
            WriteKeepsRetained(cfg, log.files, past, e, past');
          }
          RunsKeepRetained(cfg, Step(cfg, log, ops[0]), past', sofar && (log.enabled ==> Fits(cfg, e)), ops[1..]);
        case Clear =>
          RunsKeepRetained(cfg, Step(cfg, log, ops[0]), [], true, ops[1..]);
        case SetEnabled(on) =>
          RunsKeepRetained(cfg, Step(cfg, log, ops[0]), if on then past else [], sofar || !on, ops[1..]);
      }
    }
  }

  /** Retained files that no longer hold everything hold at least every other slot's worth. */
  lemma RetainedBytes(cfg: Config, files: Files, history: seq<Entry>)
    requires IsRetained(cfg, files, history)
    ensures var w := Window(files, cfg.backups);
            w == history || Size(w) >= (cfg.backups + 1) / 2 * cfg.maxBytes
  {
    if cfg.backups in files {
      PackedBytes(cfg, files, cfg.backups);
      PairBytesIs(cfg.backups, cfg.maxBytes);
      AllBytesIsWindowSize(files, cfg.backups);
    }
  }

  /**
   After any operations, if the entries accepted since the last clearing fit, either all of
   them are still there or at least half of the available slots' worth of bytes is retained,
   counted in whole pairs of files.
   */
  lemma RetentionBound(cfg: Config, enabled: bool, ops: seq<Op>)
    requires cfg.Valid()
    requires AllFit(cfg, enabled, true, ops)
    ensures var w := Window(Final(cfg, Log(enabled, map[]), ops).files, cfg.backups);
            var history := History(cfg, enabled, [], ops);
            w == history || Size(w) >= (cfg.backups + 1) / 2 * cfg.maxBytes
  {
    NothingIsRetained(cfg);
    RunsKeepRetained(cfg, Log(enabled, map[]), [], true, ops);
    RetainedBytes(cfg, Final(cfg, Log(enabled, map[]), ops).files, History(cfg, enabled, [], ops));
  }

  /** After any operations: bounded files, a window onto the history's end, and enough of it. */
  lemma LogIsAWindow(cfg: Config, enabled: bool, ops: seq<Op>)
    requires cfg.Valid()
    ensures var files := Final(cfg, Log(enabled, map[]), ops).files;
            var w, history := Window(files, cfg.backups), History(cfg, enabled, [], ops);
            && (forall i :: i in files ==> i <= cfg.backups && Size(files[i]) <= cfg.maxBytes)
            && IsSuffix(w, history)
            && (AllFit(cfg, enabled, true, ops) ==>
                  w == history || Size(w) >= (cfg.backups + 1) / 2 * cfg.maxBytes)
  {
    WindowOfNothing(cfg.backups);
    RunsKeepWindow(cfg, Log(enabled, map[]), [], ops);
    if AllFit(cfg, enabled, true, ops) {
      RetentionBound(cfg, enabled, ops);
    }
  }

  // ----- each operation, in any state that can be reached

  /**
   An append to an enabled log drops the oldest slot exactly when the current file has no
   room, and then adds the entry unless no file has room for it. A disabled log ignores it.
   */
  lemma AppendEffect(cfg: Config, enabled: bool, ops: seq<Op>, e: Entry)
    requires cfg.Valid()
    ensures var log := Final(cfg, Log(enabled, map[]), ops);
            var log' := Step(cfg, log, Append(e));
            && log'.enabled == log.enabled
            && (!log.enabled ==> log'.files == log.files)
            && (log.enabled ==>
                  Window(log'.files, cfg.backups) ==
                  (if Size(File(log.files, 0)) + |e| <= cfg.maxBytes then Window(log.files, cfg.backups)
                   else if cfg.backups == 0 then []
                   else Window(log.files, cfg.backups - 1))
                  + if |e| <= cfg.maxBytes then [e] else [])
  {
    LogIsAWindow(cfg, enabled, ops);
    WriteWindow(cfg, Final(cfg, Log(enabled, map[]), ops).files, e);
  }

  /** Clearing and disabling leave no file at all; enabling leaves every file as it is. */
  lemma SwitchEffect(cfg: Config, enabled: bool, ops: seq<Op>)
    requires cfg.Valid()
    ensures var log := Final(cfg, Log(enabled, map[]), ops);
            && Step(cfg, log, Clear) == Log(log.enabled, map[])
            && Step(cfg, log, SetEnabled(false)) == Log(false, map[])
            && Step(cfg, log, SetEnabled(true)) == Log(true, log.files)
  {
    LogIsAWindow(cfg, enabled, ops);
    ClearingEmpties(cfg, Final(cfg, Log(enabled, map[]), ops).files);
  }
}
