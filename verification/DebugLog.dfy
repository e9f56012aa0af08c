/**
 The rotating debug log. Slot 0 is the current file, slot `i` the backup that ends in `.i`;
 a file is the sequence of entries written to it, each in one piece.
 */
module DebugLog {
  import opened Base

  const MAX_BACKUP_COUNT: nat := 10

  type Entry = seq<byte>
  type Files = map<nat, seq<Entry>>

  datatype Config = Config(maxBytes: nat, backups: nat) {
    /** A limit of exactly the largest 64-bit integer would never be exceeded. */
    predicate Valid() {
      0 < maxBytes < U64_MAX && backups <= MAX_BACKUP_COUNT
    }
  }

  datatype Log = Log(enabled: bool, files: Files)

  datatype Op = Append(entry: Entry) | Clear | SetEnabled(enabled: bool)

  function Size(file: seq<Entry>): nat {
    if file == [] then 0 else |file[0]| + Size(file[1..])
  }

  lemma {:induction false} SizeConcat(a: seq<Entry>, b: seq<Entry>)
    ensures Size(a + b) == Size(a) + Size(b)
  {
    if a == [] {
      assert a + b == b;
    } else {
      SizeConcat(a[1..], b);
      assert (a + b)[1..] == a[1..] + b;
    }
  }

  lemma SizeOfOne(e: Entry)
    ensures Size([e]) == |e|
  {
    assert [e][1..] == [];
  }

  function File(files: Files, slot: nat): seq<Entry> {
    if slot in files then files[slot] else []
  }

  function SaturatingAdd(a: nat, b: nat): nat {
    if a + b > U64_MAX then U64_MAX else a + b
  }

  // ----- the effect of each operation

  /** Removes the destination and renames the source to it, if there is one. */
  function Renamed(files: Files, src: nat, dst: nat): Files {
    var cleared := files - {dst};
    if src in cleared then cleared[dst := cleared[src]] - {src} else cleared
  }

  /** The renames into slots `index`, `index - 1`, ..., 1. */
  function RenamedDown(files: Files, index: nat): Files
    decreases index
  {
    if index == 0 then files else RenamedDown(Renamed(files, index - 1, index), index - 1)
  }

  function At(files: Files, i: nat): Option<seq<Entry>> {
    if i in files then Some(files[i]) else None
  }

  lemma RenamedAt(files: Files, dst: nat, i: nat)
    requires dst > 0
    ensures At(Renamed(files, dst - 1, dst), i) ==
            if i == dst then At(files, dst - 1) else if i == dst - 1 then None else At(files, i)
  {
  }

  /** Done from the last slot down, the renames shift every file by exactly one slot. */
  lemma {:induction false} RenamesShift(files: Files, index: nat, i: nat)
    requires index > 0
    ensures At(RenamedDown(files, index), i) ==
            if i == 0 then None else if i <= index then At(files, i - 1) else At(files, i)
    decreases index
  {
    var first := Renamed(files, index - 1, index);
    RenamedAt(files, index, i);
    if index > 1 {
      RenamesShift(first, index - 1, i);
      if i > 0 {
        RenamedAt(files, index, i - 1);
      }
    } else {
      assert RenamedDown(files, 1) == RenamedDown(first, 0) == first;
    }
  }

  function Rotated(cfg: Config, files: Files): Files {
    if Size(File(files, 0)) > cfg.maxBytes || cfg.backups == 0 then files - {0}
    else RenamedDown(files, cfg.backups)
  }

  /** Opening creates the current file if it is missing. */
  function Opened(files: Files): Files {
    files[0 := File(files, 0)]
  }

  /** Makes room for an entry of the given size. */
  function Prepared(cfg: Config, files: Files, upcoming: nat): Files {
    if SaturatingAdd(Size(File(files, 0)), upcoming) > cfg.maxBytes then Opened(Rotated(cfg, Opened(files)))
    else Opened(files)
  }

  /** Discards the current file if the entry made it too large. */
  function Capped(cfg: Config, files: Files): Files {
    if Size(File(files, 0)) > cfg.maxBytes then Opened(Rotated(cfg, files)) else files
  }

  function Written(cfg: Config, files: Files, entry: Entry): Files {
    var ready := Prepared(cfg, files, |entry|);
    Capped(cfg, ready[0 := File(ready, 0) + [entry]])
  }

  /**
   What each slot holds after an entry that fits: it joins the current file, or the files move
   up by one slot, the last one is lost, and the entry starts a new current file.
   */
  function SlotAfter(cfg: Config, files: Files, entry: Entry, i: nat): Option<seq<Entry>> {
    if Size(File(files, 0)) + |entry| <= cfg.maxBytes then
      if i == 0 then Some(File(files, 0) + [entry]) else At(files, i)
    else if i == 0 then Some([entry])
    else if i <= cfg.backups then At(files, i - 1)
    else At(files, i)
  }

  lemma WrittenAt(cfg: Config, files: Files, entry: Entry, i: nat)
    requires cfg.Valid()
    requires |entry| <= cfg.maxBytes && Size(File(files, 0)) <= cfg.maxBytes
    ensures At(Written(cfg, files, entry), i) == SlotAfter(cfg, files, entry, i)
  {
    SizeConcat(File(files, 0), [entry]);
    SizeOfOne(entry);
    if Size(File(files, 0)) + |entry| > cfg.maxBytes {
      assert 0 in files && Opened(files) == files;
      if cfg.backups > 0 {
        RenamesShift(files, cfg.backups, i);
        RenamesShift(files, cfg.backups, 0);
      }
      assert File(Rotated(cfg, files), 0) == [];
      assert [] + [entry] == [entry];
    }
  }

  function Cleared(files: Files): Files {
    map i | i in files && i > MAX_BACKUP_COUNT :: files[i]
  }

  function Step(cfg: Config, log: Log, op: Op): Log {
    match op
    case Append(entry) => if log.enabled then log.(files := Written(cfg, log.files, entry)) else log
    case Clear => log.(files := Cleared(log.files))
    case SetEnabled(on) => Log(on, if on then log.files else Cleared(log.files))
  }

  // ----- the log object

  class DebugLogFile {
    const config: Config
    var enabled: bool
    var isOpen: bool
    var files: Files

    ghost predicate Valid()
      reads this
    {
      isOpen ==> 0 in files
    }

    function View(): Log
      reads this
    {
      Log(enabled, files)
    }

    constructor (config: Config)
      ensures Valid() && View() == Log(false, map[]) && this.config == config
    {
      this.config := config;
      enabled, isOpen, files := false, false, map[];
    }

    method EnsureFileOpen()
      requires Valid()
      modifies this`isOpen, this`files
      ensures Valid() && isOpen && files == Opened(old(files))
    {
      if !isOpen {
        files := files[0 := File(files, 0)];
        isOpen := true;
      }
    }

    /** Drops an oversized current file, or shifts the backups from the last one down. */
    method RotateLocked()
      modifies this`isOpen, this`files
      ensures Valid() && !isOpen && files == Rotated(config, old(files))
    {
      isOpen := false;
      if Size(File(files, 0)) > config.maxBytes {
        files := files - {0};
        return;
      }
      if config.backups == 0 {
        files := files - {0};
        return;
      }
      ghost var was := files;
      var index := config.backups;
      while index > 0
        invariant 0 <= index <= config.backups
        invariant !isOpen
        invariant RenamedDown(files, index) == RenamedDown(was, config.backups)
      {
        files := Renamed(files, index - 1, index);
        index := index - 1;
      }
    }

    method EnsureCapacity(upcoming: nat)
      requires Valid()
      modifies this`isOpen, this`files
      ensures Valid() && isOpen && files == Prepared(config, old(files), upcoming)
    {
      EnsureFileOpen();
      if SaturatingAdd(Size(File(files, 0)), upcoming) > config.maxBytes {
        RotateLocked();
        EnsureFileOpen();
      }
    }

    method EnforcePostWriteCap()
      requires Valid()
      modifies this`isOpen, this`files
      ensures Valid() && files == Capped(config, old(files))
    {
      if Size(File(files, 0)) > config.maxBytes {
        RotateLocked();
        EnsureFileOpen();
      }
    }

    /** Appends one redacted entry, as a single write. */
    method AppendLine(entry: Entry)
      requires Valid()
      modifies this`isOpen, this`files
      ensures Valid() && View() == Step(config, old(View()), Append(entry))
      ensures old(enabled) && config.Valid() && |entry| <= config.maxBytes && Size(old(File(files, 0))) <= config.maxBytes ==>
                forall i: nat :: At(files, i) == SlotAfter(config, old(files), entry, i)
    {
      ghost var was := files;
      if !enabled {
        return;
      }
      EnsureCapacity(|entry|);
      files := files[0 := File(files, 0) + [entry]];
      EnforcePostWriteCap();
      if config.Valid() && |entry| <= config.maxBytes && Size(File(was, 0)) <= config.maxBytes {
        forall i: nat ensures At(files, i) == SlotAfter(config, was, entry, i) {
          WrittenAt(config, was, entry, i);
        }
      }
    }

    method ClearLogs()
      modifies this`isOpen, this`files
      ensures Valid() && View() == Step(config, old(View()), Clear)
    {
      isOpen := false;
      files := files - {0};
      ghost var was := files;
      var index := 1;
      while index <= MAX_BACKUP_COUNT
        invariant 1 <= index <= MAX_BACKUP_COUNT + 1
        invariant !isOpen
        invariant forall i :: i in files <==> i in was && (i == 0 || i >= index)
        invariant forall i :: i in files ==> files[i] == was[i]
      {
        files := files - {index};
        index := index + 1;
      }
    }

    method Enable(on: bool)
      requires Valid()
      modifies this
      ensures Valid() && View() == Step(config, old(View()), SetEnabled(on))
    {
      enabled := on;
      if !on {
        ClearLogs();
      }
    }
  }
}
