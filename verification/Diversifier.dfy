/**
 Diversifier rotation: which address index is handed out next, under four policies.
 The counter is a 32-bit integer that wraps around.
 */
module Diversifier {
  import opened Base

  const DEFAULT_GAP_LIMIT: u32 := 20

  datatype Usage = Usage(shareCount: u32, received: bool, spent: bool) {
    predicate ShouldAvoid() {
      received || spent || shareCount > 1
    }
  }

  datatype Policy = AlwaysFresh | ReuseUntilReceived | ReuseUntilShared(maxShares: u32) | Manual

  datatype State = State(
    current: u32,
    highest: u32,
    used: set<u32>,
    usage: map<u32, Usage>,
    policy: Policy,
    gapLimit: u32)

  // ----- the counter

  function Next(i: u32): u32 {
    (i + 1) % U32_LIMIT
  }

  /** Steps of the counter from one index to another. */
  function Distance(from: u32, to: u32): u32 {
    if from <= to then to - from else to + U32_LIMIT - from
  }

  predicate IsAvoided(usage: map<u32, Usage>, i: u32) {
    i in usage && usage[i].ShouldAvoid()
  }

  /** Some index is still free to hand out; without one the search would not end. */
  ghost predicate HasOpen(usage: map<u32, Usage>) {
    exists i: u32 :: !IsAvoided(usage, i)
  }

  ghost function SomeOpen(usage: map<u32, Usage>): u32
    requires HasOpen(usage)
  {
    var i: u32 :| !IsAvoided(usage, i);
    i
  }

  /** The first index, counting on from `c`, that need not be avoided. */
  function FreshFrom(usage: map<u32, Usage>, c: u32): (i: u32)
    requires HasOpen(usage)
    ensures !IsAvoided(usage, i)
    ensures forall j: u32 :: Distance(c, j) < Distance(c, i) ==> IsAvoided(usage, j)
    decreases Distance(c, SomeOpen(usage))
  {
    if IsAvoided(usage, c) then
      var i := FreshFrom(usage, Next(c));
      assert forall j: u32 :: j != c ==> Distance(c, j) == Distance(Next(c), j) + 1;
      i
    else c
  }

  /** Skipping an avoided index leads to the same result, one step nearer to any open one. */
  lemma SkipAvoided(usage: map<u32, Usage>, c: u32, open: u32)
    requires IsAvoided(usage, c) && !IsAvoided(usage, open)
    ensures FreshFrom(usage, c) == FreshFrom(usage, Next(c))
    ensures Distance(Next(c), open) < Distance(c, open)
  {
  }

  /** Without wrapping, the least open index at or above the counter. */
  lemma FreshIsLeast(usage: map<u32, Usage>, c: u32, open: u32)
    requires c <= open && !IsAvoided(usage, open)
    ensures c <= FreshFrom(usage, c) <= open
    ensures forall j: u32 :: c <= j < FreshFrom(usage, c) ==> IsAvoided(usage, j)
  {
    var i := FreshFrom(usage, c);
    assert Distance(c, i) <= Distance(c, open);
    forall j: u32 | c <= j < i ensures IsAvoided(usage, j) {
      assert Distance(c, j) < Distance(c, i);
    }
  }

  // ----- operations

  datatype Op =
    | Request
    | MarkShared(index: u32)
    | MarkReceived(index: u32)
    | MarkSpent(index: u32)
    | SetLabel(index: u32)
    | AdvanceTo(index: u32)
    | PersistAndRestore

  function New(policy: Policy): State {
    State(0, 0, {}, map[], policy, DEFAULT_GAP_LIMIT)
  }

  function Max(a: u32, b: u32): u32 {
    if a < b then b else a
  }

  function UsageOf(s: State, i: u32): Usage {
    if i in s.usage then s.usage[i] else Usage(0, false, false)
  }

  /** Whether the policy gives up the current index. */
  predicate Rotates(s: State) {
    match s.policy
    case AlwaysFresh => true
    case ReuseUntilReceived => s.current in s.usage && s.usage[s.current].received
    case ReuseUntilShared(n) =>
      s.current in s.usage && (s.usage[s.current].shareCount >= n || s.usage[s.current].received)
    case Manual => false
  }

  ghost predicate IsEnabled(s: State, op: Op) {
    op == Request && Rotates(s) ==> HasOpen(s.usage)
  }

  /** The index a request returns. */
  function RequestIndex(s: State): u32
    requires IsEnabled(s, Request)
  {
    if Rotates(s) then FreshFrom(s.usage, s.current) else s.current
  }

  function TakeFresh(s: State): State
    requires HasOpen(s.usage)
  {
    var i := FreshFrom(s.usage, s.current);
    s.(current := Next(i), highest := Max(s.highest, i))
  }

  function Shared(s: State, i: u32): State {
    var u := UsageOf(s, i);
    s.(used := s.used + {i}, usage := s.usage[i := u.(shareCount := Next(u.shareCount))])
  }

  /** Restoring keeps the counters and the used set, and forgets all usage. */
  function Restored(current: u32, highest: u32, used: set<u32>, policy: Policy): State {
    New(policy).(current := current, highest := highest, used := used)
  }

  function Step(s: State, op: Op): State
    requires IsEnabled(s, op)
  {
    match op
    case Request => Shared(if Rotates(s) then TakeFresh(s) else s, RequestIndex(s))
    case MarkShared(i) => Shared(s, i)
    case MarkReceived(i) =>
      s.(used := s.used + {i}, usage := s.usage[i := UsageOf(s, i).(received := true)])
    case MarkSpent(i) =>
      s.(used := s.used + {i}, usage := s.usage[i := UsageOf(s, i).(spent := true)])
    case SetLabel(i) => s.(usage := s.usage[i := UsageOf(s, i)])
    case AdvanceTo(i) => s.(current := i, highest := Max(s.highest, i))
    case PersistAndRestore => Restored(s.current, s.highest, s.used, s.policy)
  }

  function CurrentGap(s: State): u32 {
    if s.current < s.highest then 0 else s.current - s.highest
  }

  predicate IsGapExceeded(s: State) {
    CurrentGap(s) > s.gapLimit
  }

  // ----- the service object

  class RotationService {
    var current: u32
    var highest: u32
    var used: set<u32>
    var usage: map<u32, Usage>
    var policy: Policy
    var gapLimit: u32

    function View(): State
      reads this
    {
      State(current, highest, used, usage, policy, gapLimit)
    }

    constructor (policy: Policy)
      ensures View() == New(policy)
    {
      this.policy := policy;
      current, highest, used, usage, gapLimit := 0, 0, {}, map[], DEFAULT_GAP_LIMIT;
    }

    constructor Restore(current: u32, highest: u32, used: set<u32>, policy: Policy)
      ensures View() == Restored(current, highest, used, policy)
    {
      this.current, this.highest, this.used, this.policy := current, highest, used, policy;
      usage, gapLimit := map[], DEFAULT_GAP_LIMIT;
    }

    /** The skipping loop; it ends because every step brings the counter nearer to an open index. */
    method NextFreshIndex() returns (i: u32)
      requires HasOpen(usage)
      modifies this`current, this`highest
      ensures i == FreshFrom(usage, old(current))
      ensures View() == TakeFresh(old(View()))
    {
      ghost var open := SomeOpen(usage);
      ghost var goal := FreshFrom(usage, current);
      while true
        invariant FreshFrom(usage, current) == goal
        invariant highest == old(highest)
        decreases Distance(current, open)
      {
        var c := current;
        current := Next(current);
        if c in usage && usage[c].ShouldAvoid() {
          SkipAvoided(usage, c, open);
          continue;
        }
        highest := Max(highest, c);
        return c;
      }
    }

    method RequestAddress() returns (i: u32)
      requires IsEnabled(View(), Request)
      modifies this
      ensures i == RequestIndex(old(View()))
      ensures View() == Step(old(View()), Request)
    {
      match policy {
        case AlwaysFresh =>
          i := NextFreshIndex();
        case ReuseUntilReceived =>
          if current in usage && usage[current].received {
            i := NextFreshIndex();
          } else {
            i := current;
          }
        case ReuseUntilShared(n) =>
          if current in usage && (usage[current].shareCount >= n || usage[current].received) {
            i := NextFreshIndex();
          } else {
            i := current;
          }
        case Manual =>
          i := current;
      }
      NoteShared(i);
    }

    method NoteShared(i: u32)
      modifies this`used, this`usage
      ensures View() == Step(old(View()), MarkShared(i))
    {
      used := used + {i};
      var u := if i in usage then usage[i] else Usage(0, false, false);
      usage := usage[i := u.(shareCount := Next(u.shareCount))];
    }

    method NoteReceived(i: u32)
      modifies this`used, this`usage
      ensures View() == Step(old(View()), MarkReceived(i))
    {
      used := used + {i};
      var u := if i in usage then usage[i] else Usage(0, false, false);
      usage := usage[i := u.(received := true)];
    }

    method NoteSpent(i: u32)
      modifies this`used, this`usage
      ensures View() == Step(old(View()), MarkSpent(i))
    {
      used := used + {i};
      var u := if i in usage then usage[i] else Usage(0, false, false);
      usage := usage[i := u.(spent := true)];
    }

    method Advance(i: u32)
      modifies this`current, this`highest
      ensures View() == Step(old(View()), AdvanceTo(i))
    {
      current := i;
      highest := Max(highest, i);
    }
  }
}
