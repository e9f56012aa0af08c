/**
 Any number of threads calling for fresh indices through a shared reference. The steps are
 the atomic operations: fetch-and-add on the counter, fetch-max on the highest index.
 */
module DiversifierThreads {
  import opened Base
  import opened Diversifier

  /** Where a thread stands that holds a counter value. */
  datatype Hold = Fetched(index: u32) | Raised(index: u32)

  /** `skipped` and `returned` record the past; the service itself keeps only the two counters. */
  datatype System = System(
    counter: u32,
    highest: u32,
    inFlight: map<nat, Hold>,
    skipped: set<u32>,
    returned: seq<u32>)

  datatype Move = Fetch(thread: nat) | Skip(thread: nat) | Raise(thread: nat) | Return(thread: nat)

  predicate CanMove(usage: map<u32, Usage>, s: System, m: Move) {
    match m
    case Fetch(t) => t !in s.inFlight
    case Skip(t) => t in s.inFlight && s.inFlight[t].Fetched? && IsAvoided(usage, s.inFlight[t].index)
    case Raise(t) => t in s.inFlight && s.inFlight[t].Fetched? && !IsAvoided(usage, s.inFlight[t].index)
    case Return(t) => t in s.inFlight && s.inFlight[t].Raised?
  }

  function Moved(s: System, m: Move): System
    requires m.Fetch? || m.thread in s.inFlight
  {
    match m
    case Fetch(t) => s.(counter := Next(s.counter), inFlight := s.inFlight[t := Fetched(s.counter)])
    case Skip(t) => s.(skipped := s.skipped + {s.inFlight[t].index}, inFlight := s.inFlight - {t})
    case Raise(t) =>
      var c := s.inFlight[t].index;
      s.(highest := Max(s.highest, c), inFlight := s.inFlight[t := Raised(c)])
    case Return(t) => s.(returned := s.returned + [s.inFlight[t].index], inFlight := s.inFlight - {t})
  }

  function Start(counter: u32, highest: u32): System {
    System(counter, highest, map[], {}, [])
  }

  /** A run before the counter wraps: each step is some thread's move. */
  ghost predicate IsRun(usage: map<u32, Usage>, first: System, moves: seq<Move>, last: System)
    decreases moves
  {
    if moves == [] then first == last
    else
      var before := moves[..|moves| - 1];
      var m := moves[|moves| - 1];
      exists mid ::
        && IsRun(usage, first, before, mid)
        && CanMove(usage, mid, m)
        && (m.Fetch? ==> mid.counter + 1 < U32_LIMIT)
        && last == Moved(mid, m)
  }

  // ----- the invariant

  ghost predicate IsHeld(s: System, c: u32) {
    exists t :: t in s.inFlight && s.inFlight[t].index == c
  }

  /** The consumed range is split among returned, skipped and held values, each exactly once. */
  ghost predicate SplitsRange(start: u32, s: System) {
    && start <= s.counter
    && (forall c: u32 :: start <= c < s.counter <==> c in s.returned || c in s.skipped || IsHeld(s, c))
    && (forall i, j :: 0 <= i < j < |s.returned| ==> s.returned[i] != s.returned[j])
    && (forall c :: c in s.returned ==> c !in s.skipped && !IsHeld(s, c))
    && (forall c :: c in s.skipped ==> !IsHeld(s, c))
    && (forall t, t' :: t in s.inFlight && t' in s.inFlight && s.inFlight[t].index == s.inFlight[t'].index ==> t == t')
  }

  /** Only avoided values are skipped, and none is on its way out or returned. */
  ghost predicate SkipsAvoided(usage: map<u32, Usage>, s: System) {
    && (forall c :: c in s.skipped ==> IsAvoided(usage, c))
    && (forall c :: c in s.returned ==> !IsAvoided(usage, c))
    && (forall t :: t in s.inFlight && s.inFlight[t].Raised? ==> !IsAvoided(usage, s.inFlight[t].index))
  }

  ghost predicate IsRaised(s: System, c: u32) {
    exists t :: t in s.inFlight && s.inFlight[t] == Raised(c)
  }

  /** The highest index is the starting one, or the greatest that was raised. */
  ghost predicate TracksHighest(highest: u32, s: System) {
    && highest <= s.highest
    && (forall c :: c in s.returned ==> c <= s.highest)
    && (forall t :: t in s.inFlight && s.inFlight[t].Raised? ==> s.inFlight[t].index <= s.highest)
    && (s.highest == highest || s.highest in s.returned || IsRaised(s, s.highest))
  }

  /** Which values are held after a move. */
  lemma HeldAfter(usage: map<u32, Usage>, start: u32, s: System, m: Move, c: u32)
    requires SplitsRange(start, s)
    requires CanMove(usage, s, m)
    ensures IsHeld(Moved(s, m), c) <==>
            match m
            case Fetch(_) => IsHeld(s, c) || c == s.counter
            case Raise(_) => IsHeld(s, c)
            case _ => IsHeld(s, c) && c != s.inFlight[m.thread].index
  {
    var s' := Moved(s, m);
    var t := m.thread;
    if m.Fetch? {
      assert s'.inFlight[t].index == s.counter;
    }
    if x :| x in s.inFlight && s.inFlight[x].index == c {
      assert x in s'.inFlight || x == t;
      if x in s'.inFlight {
        assert s'.inFlight[x].index == c;
      }
    }
    if x :| x in s'.inFlight && s'.inFlight[x].index == c {
      assert x in s.inFlight || x == t;
    }
  }

  lemma MoveKeepsSplit(usage: map<u32, Usage>, start: u32, s: System, m: Move)
    requires SplitsRange(start, s)
    requires CanMove(usage, s, m) && (m.Fetch? ==> s.counter + 1 < U32_LIMIT)
    ensures SplitsRange(start, Moved(s, m))
  {
    var s' := Moved(s, m);
    forall c: u32 ensures IsHeld(s', c) <==>
      match m
      case Fetch(_) => IsHeld(s, c) || c == s.counter
      case Raise(_) => IsHeld(s, c)
      case _ => IsHeld(s, c) && c != s.inFlight[m.thread].index
    {
      HeldAfter(usage, start, s, m, c);
    }
    if !m.Fetch? {
      assert IsHeld(s, s.inFlight[m.thread].index);
    } else {
      assert !IsHeld(s, s.counter);
    }
  }

  lemma MoveKeepsSkips(usage: map<u32, Usage>, s: System, m: Move)
    requires SkipsAvoided(usage, s)
    requires CanMove(usage, s, m)
    ensures SkipsAvoided(usage, Moved(s, m))
  {
  }

  lemma MoveKeepsHighest(usage: map<u32, Usage>, highest: u32, s: System, m: Move)
    requires TracksHighest(highest, s)
    requires CanMove(usage, s, m)
    ensures TracksHighest(highest, Moved(s, m))
  {
    var s' := Moved(s, m);
    var t := m.thread;
    if s'.highest != highest {
      if m.Raise? && s'.highest == s.inFlight[t].index {
        assert s'.inFlight[t] == Raised(s'.highest);
      } else if s.highest !in s.returned {
        var x :| x in s.inFlight && s.inFlight[x] == Raised(s.highest);
        if x == t {
          assert m.Return?;
          assert s'.returned[|s.returned|] == s.highest;
        } else {
          assert s'.inFlight[x] == Raised(s'.highest);
        }
      }
    }
  }

  /** All three invariants hold at the end of every run, for any number of threads. */
  lemma {:induction false} RunsAreSafe(
      usage: map<u32, Usage>, start: u32, highest: u32, moves: seq<Move>, s: System)
    requires IsRun(usage, Start(start, highest), moves, s)
    ensures SplitsRange(start, s)
    ensures SkipsAvoided(usage, s)
    ensures TracksHighest(highest, s)
    decreases moves
  {
    if moves != [] {
      var before, m := moves[..|moves| - 1], moves[|moves| - 1];
      var mid :|
        && IsRun(usage, Start(start, highest), before, mid)
        && CanMove(usage, mid, m)
        && (m.Fetch? ==> mid.counter + 1 < U32_LIMIT)
        && s == Moved(mid, m);
      RunsAreSafe(usage, start, highest, before, mid);
      MoveKeepsSplit(usage, start, mid, m);
      MoveKeepsSkips(usage, mid, m);
      MoveKeepsHighest(usage, highest, mid, m);
    }
  }

  // ----- quiescence and the sequential service

  /**
   When no thread is under way, exactly the open indices of the consumed range have been
   returned, once each, and the highest index is the greatest of them and its old value.
   */
  lemma QuiescentOutcome(usage: map<u32, Usage>, start: u32, highest: u32, moves: seq<Move>, s: System)
    requires IsRun(usage, Start(start, highest), moves, s)
    requires s.inFlight == map[]
    ensures forall c: u32 :: c in s.returned <==> start <= c < s.counter && !IsAvoided(usage, c)
    ensures forall i, j :: 0 <= i < j < |s.returned| ==> s.returned[i] != s.returned[j]
    ensures s.highest == highest || s.highest in s.returned
    ensures highest <= s.highest && forall c :: c in s.returned ==> c <= s.highest
  {
    RunsAreSafe(usage, start, highest, moves, s);
  }

  /** The indices that `k` calls in sequence return. */
  function Sequential(usage: map<u32, Usage>, c: u32, k: nat): seq<u32>
    requires HasOpen(usage)
    decreases k
  {
    if k == 0 then []
    else
      var i := FreshFrom(usage, c);
      [i] + Sequential(usage, Next(i), k - 1)
  }

  /** The first call takes the least open index, and leaves the others for the next calls. */
  lemma LeastOpen(usage: map<u32, Usage>, c: u32, end: u32, open: set<u32>) returns (least: u32)
    requires open != {}
    requires forall i: u32 :: i in open <==> c <= i < end && !IsAvoided(usage, i)
    ensures HasOpen(usage) && least == FreshFrom(usage, c) && least in open
    ensures |open - {least}| == |open| - 1
    ensures forall i: u32 :: i in open - {least} <==> Next(least) <= i < end && !IsAvoided(usage, i)
  {
    var some: u32 :| some in open;
    assert !IsAvoided(usage, some);
    FreshIsLeast(usage, c, some);
    least := FreshFrom(usage, c);
    assert least in open;
    forall i: u32 | i in open - {least} ensures least < i {
      assert !IsAvoided(usage, i);
    }
    assert Next(least) == least + 1;
  }

  /** Calls in sequence return the open indices of any range that holds exactly as many. */
  lemma {:induction false} SequentialTakesOpen(usage: map<u32, Usage>, c: u32, end: u32, open: set<u32>)
    requires HasOpen(usage)
    requires forall i: u32 :: i in open <==> c <= i < end && !IsAvoided(usage, i)
    ensures forall i: u32 :: i in Sequential(usage, c, |open|) <==> i in open
    decreases open
  {
    if open != {} {
      var least := LeastOpen(usage, c, end, open);
      SequentialTakesOpen(usage, Next(least), end, open - {least});
      assert Sequential(usage, c, |open|) == [least] + Sequential(usage, Next(least), |open - {least}|);
    }
  }

  function Indices(s: seq<u32>): set<u32> {
    set i | i in s
  }

  lemma {:induction false} DistinctSize(s: seq<u32>)
    requires forall i, j :: 0 <= i < j < |s| ==> s[i] != s[j]
    ensures |Indices(s)| == |s|
  {
    if s != [] {
      DistinctSize(s[1..]);
      assert Indices(s) == Indices(s[1..]) + {s[0]};
      assert s[0] !in Indices(s[1..]);
    }
  }

  /** Concurrent calls return just what the same number of calls in sequence would, in some order. */
  lemma ConcurrentMatchesSequential(
      usage: map<u32, Usage>, start: u32, highest: u32, moves: seq<Move>, s: System)
    requires HasOpen(usage)
    requires IsRun(usage, Start(start, highest), moves, s)
    requires s.inFlight == map[]
    ensures forall i: u32 :: i in s.returned <==> i in Sequential(usage, start, |s.returned|)
  {
    QuiescentOutcome(usage, start, highest, moves, s);
    DistinctSize(s.returned);
    SequentialTakesOpen(usage, start, s.counter, Indices(s.returned));
  }
}
