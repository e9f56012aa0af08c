/** What holds over every run of the rotation service. */
module DiversifierRuns {
  import opened Base
  import opened Diversifier

  /** Every request in the run finds an index to return. */
  ghost predicate IsLegal(s: State, ops: seq<Op>)
    decreases ops
  {
    ops != [] ==> IsEnabled(s, ops[0]) && IsLegal(Step(s, ops[0]), ops[1..])
  }

  function Final(s: State, ops: seq<Op>): State
    requires IsLegal(s, ops)
    decreases ops
  {
    if ops == [] then s else Final(Step(s, ops[0]), ops[1..])
  }

  /** The indices handed out by the requests of a run, in order. */
  function Returned(s: State, ops: seq<Op>): seq<u32>
    requires IsLegal(s, ops)
    decreases ops
  {
    if ops == [] then []
    else
      var rest := Returned(Step(s, ops[0]), ops[1..]);
      if ops[0] == Request then [RequestIndex(s)] + rest else rest
  }

  // ----- the gap between counter and highest used index

  /** The counter is at most one ahead of the highest index used. */
  ghost predicate IsClose(s: State) {
    s.current <= s.highest + 1
  }

  lemma {:induction false} StaysClose(s: State, ops: seq<Op>)
    requires IsLegal(s, ops)
    requires IsClose(s)
    ensures IsClose(Final(s, ops))
    decreases ops
  {
    if ops != [] {
      StaysClose(Step(s, ops[0]), ops[1..]);
    }
  }

  lemma {:induction false} GapLimitIsKept(s: State, ops: seq<Op>)
    requires IsLegal(s, ops)
    requires s.gapLimit == DEFAULT_GAP_LIMIT
    ensures Final(s, ops).gapLimit == DEFAULT_GAP_LIMIT
    decreases ops
  {
    if ops != [] {
      GapLimitIsKept(Step(s, ops[0]), ops[1..]);
    }
  }

  /** In no run from a new service is the gap ever more than one, so the limit is never exceeded. */
  lemma GapNeverExceedsOne(policy: Policy, ops: seq<Op>)
    requires IsLegal(New(policy), ops)
    ensures CurrentGap(Final(New(policy), ops)) <= 1
    ensures Final(New(policy), ops).gapLimit == 20 && !IsGapExceeded(Final(New(policy), ops))
  {
    StaysClose(New(policy), ops);
    GapLimitIsKept(New(policy), ops);
  }

  // ----- received indices are not handed out again

  /** The indices marked as having received funds since the service was last created or restored. */
  function ReceivedIn(known: set<u32>, ops: seq<Op>): set<u32>
    decreases ops
  {
    if ops == [] then known
    else
      match ops[0]
      case MarkReceived(i) => ReceivedIn(known + {i}, ops[1..])
      case PersistAndRestore => ReceivedIn({}, ops[1..])
      case _ => ReceivedIn(known, ops[1..])
  }

  ghost predicate Remembers(s: State, known: set<u32>) {
    forall i: u32 :: i in known <==> UsageOf(s, i).received
  }

  lemma {:induction false} RemembersReceipts(s: State, known: set<u32>, ops: seq<Op>)
    requires IsLegal(s, ops)
    requires Remembers(s, known)
    ensures Remembers(Final(s, ops), ReceivedIn(known, ops))
    decreases ops
  {
    if ops != [] {
      var s' := Step(s, ops[0]);
      var known' := match ops[0]
        case MarkReceived(i) => known + {i}
        case PersistAndRestore => {}
        case _ => known;
      assert Remembers(s', known');
      RemembersReceipts(s', known', ops[1..]);
    }
  }

  /** Under the three automatic policies no request returns an index known to have received funds. */
  lemma NeverReturnsReceived(policy: Policy, ops: seq<Op>)
    requires policy != Manual
    requires IsLegal(New(policy), ops)
    requires IsEnabled(Final(New(policy), ops), Request)
    ensures RequestIndex(Final(New(policy), ops)) !in ReceivedIn({}, ops)
  {
    RemembersReceipts(New(policy), {}, ops);
    PolicyIsKept(New(policy), ops);
  }

  lemma {:induction false} PolicyIsKept(s: State, ops: seq<Op>)
    requires IsLegal(s, ops)
    ensures Final(s, ops).policy == s.policy
    decreases ops
  {
    if ops != [] {
      PolicyIsKept(Step(s, ops[0]), ops[1..]);
    }
  }

  // ----- how often an index is handed out

  function Count(indices: seq<u32>, i: u32): nat {
    if indices == [] then 0 else (if indices[0] == i then 1 else 0) + Count(indices[1..], i)
  }

  function Restores(ops: seq<Op>): nat {
    if ops == [] then 0 else (if ops[0] == PersistAndRestore then 1 else 0) + Restores(ops[1..])
  }

  /** Explicit share marks stay clear of the 32-bit limit of the share count. */
  ghost predicate SharesFit(s: State, ops: seq<Op>)
    requires IsLegal(s, ops)
    decreases ops
  {
    ops != [] ==>
      && (ops[0].MarkShared? ==> UsageOf(s, ops[0].index).shareCount + 1 < U32_LIMIT)
      && SharesFit(Step(s, ops[0]), ops[1..])
  }

  function ShareLimit(n: u32): u32 {
    Max(n, 2)
  }

  /** How often an index can still be handed out before the next restore. */
  function Room(s: State, n: u32, i: u32): nat {
    var shared := UsageOf(s, i).shareCount;
    if shared < ShareLimit(n) then ShareLimit(n) - shared else 0
  }

  /** A request takes one from the room of exactly the index it returns. */
  lemma RequestTakesRoom(s: State, n: u32, i: u32)
    requires s.policy == ReuseUntilShared(n)
    requires IsEnabled(s, Request)
    ensures Room(s, n, i) == Room(Step(s, Request), n, i) + if i == RequestIndex(s) then 1 else 0
  {
    if Rotates(s) {
      assert !IsAvoided(s.usage, RequestIndex(s));
    }
  }

  /** An operation returns an index only out of its room, which only a restore refills. */
  lemma RoomStep(s: State, n: u32, op: Op, i: u32)
    requires s.policy == ReuseUntilShared(n)
    requires IsEnabled(s, op)
    requires op.MarkShared? ==> UsageOf(s, op.index).shareCount + 1 < U32_LIMIT
    ensures Room(Step(s, op), n, i) + (if op == Request && RequestIndex(s) == i then 1 else 0) <=
            Room(s, n, i) + if op == PersistAndRestore then ShareLimit(n) else 0
  {
    if op == Request {
      RequestTakesRoom(s, n, i);
    }
  }

  function Refills(n: u32, ops: seq<Op>): nat {
    if ops == [] then 0 else (if ops[0] == PersistAndRestore then ShareLimit(n) else 0) + Refills(n, ops[1..])
  }

  lemma {:induction false} RefillsAreRestores(n: u32, ops: seq<Op>)
    ensures Refills(n, ops) == ShareLimit(n) * Restores(ops)
  {
    if ops != [] {
      RefillsAreRestores(n, ops[1..]);
      var limit: int, rest := ShareLimit(n), Restores(ops[1..]);
      assert limit * (1 + rest) == limit + limit * rest;
    }
  }

  lemma {:induction false} SharesAreCounted(s: State, n: u32, ops: seq<Op>, i: u32)
    requires IsLegal(s, ops) && SharesFit(s, ops)
    requires s.policy == ReuseUntilShared(n)
    ensures Count(Returned(s, ops), i) <= Room(s, n, i) + Refills(n, ops)
    decreases ops
  {
    if ops != [] {
      var s' := Step(s, ops[0]);
      SharesAreCounted(s', n, ops[1..], i);
      RoomStep(s, n, ops[0], i);
      if ops[0] == Request {
        var rest := Returned(s', ops[1..]);
        assert ([RequestIndex(s)] + rest)[1..] == rest;
      }
    }
  }

  /**
   Between restores an index is handed out at most `n` times, or twice if `n` is smaller,
   whatever marks and advances are interleaved.
   */
  lemma SharedAtMost(n: u32, ops: seq<Op>, i: u32)
    requires IsLegal(New(ReuseUntilShared(n)), ops) && SharesFit(New(ReuseUntilShared(n)), ops)
    ensures Count(Returned(New(ReuseUntilShared(n)), ops), i) <= ShareLimit(n) * (1 + Restores(ops))
  {
    SharesAreCounted(New(ReuseUntilShared(n)), n, ops, i);
    RefillsAreRestores(n, ops);
    assert ShareLimit(n) * (1 + Restores(ops)) == ShareLimit(n) + ShareLimit(n) * Restores(ops);
  }

  /** Uses up index 0 after every restore. */
  function ExhaustingRun(limit: nat, left: nat, restores: nat): seq<Op>
    decreases restores, left
  {
    if left > 0 then [Request] + ExhaustingRun(limit, left - 1, restores)
    else if restores > 0 then [AdvanceTo(0), PersistAndRestore] + ExhaustingRun(limit, limit, restores - 1)
    else []
  }

  /** Index 0 has been neither received nor spent, and can be handed out `left` times more. */
  ghost predicate HasLeft(s: State, n: u32, left: nat) {
    && s.policy == ReuseUntilShared(n)
    && (left > 0 ==> s.current == 0)
    && UsageOf(s, 0).shareCount + left == ShareLimit(n)
    && (0 in s.usage ==> s.usage[0].shareCount > 0 && !s.usage[0].received && !s.usage[0].spent)
  }

  lemma RequestUsesZero(s: State, n: u32, left: nat)
    requires HasLeft(s, n, left) && left > 0
    ensures IsEnabled(s, Request) && RequestIndex(s) == 0
    ensures HasLeft(Step(s, Request), n, left - 1)
  {
    if Rotates(s) {
      assert !IsAvoided(s.usage, 0);
    }
  }

  lemma {:induction false} ExhaustingRunCounts(s: State, n: u32, left: nat, restores: nat)
    requires HasLeft(s, n, left)
    ensures var ops := ExhaustingRun(ShareLimit(n), left, restores);
            && IsLegal(s, ops) && SharesFit(s, ops)
            && Restores(ops) == restores
            && Count(Returned(s, ops), 0) == left + ShareLimit(n) * restores
    decreases restores, left
  {
    var ops := ExhaustingRun(ShareLimit(n), left, restores);
    if left > 0 {
      RequestUsesZero(s, n, left);
      ExhaustingRunCounts(Step(s, Request), n, left - 1, restores);
      assert ops[1..] == ExhaustingRun(ShareLimit(n), left - 1, restores);
      var rest := Returned(Step(s, Request), ops[1..]);
      assert ([0] + rest)[1..] == rest;
    } else if restores > 0 {
      var s' := Step(Step(s, AdvanceTo(0)), PersistAndRestore);
      var rest := ExhaustingRun(ShareLimit(n), ShareLimit(n), restores - 1);
      ExhaustingRunCounts(s', n, ShareLimit(n), restores - 1);
      assert ops == [AdvanceTo(0), PersistAndRestore] + rest;
      RestartFirst(s, rest);
      assert ShareLimit(n) * restores == ShareLimit(n) + ShareLimit(n) * (restores - 1);
    }
  }

  /** Going back to index 0 and restoring returns nothing by itself. */
  lemma RestartFirst(s: State, rest: seq<Op>)
    requires var s' := Step(Step(s, AdvanceTo(0)), PersistAndRestore);
             IsLegal(s', rest) && SharesFit(s', rest)
    ensures var ops := [AdvanceTo(0), PersistAndRestore] + rest;
            && IsLegal(s, ops) && SharesFit(s, ops)
            && Restores(ops) == 1 + Restores(rest)
            && Returned(s, ops) == Returned(Step(Step(s, AdvanceTo(0)), PersistAndRestore), rest)
  {
    var s1 := Step(s, AdvanceTo(0));
    var ops := [AdvanceTo(0), PersistAndRestore] + rest;
    var later := [PersistAndRestore] + rest;
    assert later[1..] == rest;
    assert IsLegal(s1, later) && SharesFit(s1, later);
    assert ops[1..] == later;
  }

  /** That bound cannot be improved: for any number of restores some run reaches it. */
  lemma ShareBoundIsReached(n: u32, restores: nat)
    ensures exists ops ::
              && IsLegal(New(ReuseUntilShared(n)), ops) && SharesFit(New(ReuseUntilShared(n)), ops)
              && Restores(ops) == restores
              && Count(Returned(New(ReuseUntilShared(n)), ops), 0) == ShareLimit(n) * (1 + restores)
  {
    ExhaustingRunCounts(New(ReuseUntilShared(n)), n, ShareLimit(n), restores);
    assert ShareLimit(n) * (1 + restores) == ShareLimit(n) + ShareLimit(n) * restores;
  }

  /** A restore forgets shares: with a limit of two, index 0 is handed out three times. */
  lemma RestoreForgetsShares()
    ensures var ops := [Request, Request, PersistAndRestore, Request];
            IsLegal(New(ReuseUntilShared(2)), ops) && Returned(New(ReuseUntilShared(2)), ops) == [0, 0, 0]
  {
    var s1 := Step(New(ReuseUntilShared(2)), Request);
    var s2 := Step(s1, Request);
    var s3 := Step(s2, PersistAndRestore);
    var ops := [Request, Request, PersistAndRestore, Request];
    assert ops[1..] == [Request, PersistAndRestore, Request];
    assert ops[1..][1..] == [PersistAndRestore, Request];
    assert ops[1..][1..][1..] == [Request];
    assert RequestIndex(s1) == 0 && RequestIndex(s3) == 0;
  }

  /** For `n` below two the policy's own bound is broken by the second request. */
  lemma SmallLimitIsExceeded(n: u32)
    requires n < 2
    ensures IsLegal(New(ReuseUntilShared(n)), [Request, Request])
    ensures Returned(New(ReuseUntilShared(n)), [Request, Request]) == [0, 0]
  {
    var s0 := New(ReuseUntilShared(n));
    var s1 := Step(s0, Request);
    assert !IsAvoided(s1.usage, 0);
    assert [Request, Request][1..] == [Request];
    assert RequestIndex(s1) == 0;
  }

  /**
   The bound the policy is named after, counted anew after each restore, holds over all runs
   exactly when it is at least two.
   */
  lemma ShareBoundHoldsExactly(n: u32)
    ensures (forall ops: seq<Op>, i: u32 ::
               IsLegal(New(ReuseUntilShared(n)), ops) && SharesFit(New(ReuseUntilShared(n)), ops) ==>
               Count(Returned(New(ReuseUntilShared(n)), ops), i) <= n * (1 + Restores(ops)))
            <==> n >= 2
  {
    if n >= 2 {
      forall ops: seq<Op>, i: u32 |
        IsLegal(New(ReuseUntilShared(n)), ops) && SharesFit(New(ReuseUntilShared(n)), ops)
        ensures Count(Returned(New(ReuseUntilShared(n)), ops), i) <= n * (1 + Restores(ops))
      {
        SharedAtMost(n, ops, i);
      }
    } else {
      SmallLimitIsExceeded(n);
      var ops := [Request, Request];
      assert ops[1..] == [Request] && ops[1..][1..] == [];
      assert SharesFit(New(ReuseUntilShared(n)), ops) && Restores(ops) == 0;
      assert [0, 0][1..] == [0];
      assert Count([0, 0], 0) == 2;
    }
  }

  // ----- fresh indices strictly increase

  /** The counter only moves forward: explicit advances do not go back and rotations do not wrap. */
  ghost predicate IsForward(s: State, ops: seq<Op>)
    requires IsLegal(s, ops)
    decreases ops
  {
    ops != [] ==>
      && (ops[0].AdvanceTo? ==> s.current <= ops[0].index)
      && (ops[0] == Request && Rotates(s) ==> s.current < Step(s, ops[0]).current)
      && IsForward(Step(s, ops[0]), ops[1..])
  }

  ghost predicate StrictlyIncreases(indices: seq<u32>) {
    forall i, j :: 0 <= i < j < |indices| ==> indices[i] < indices[j]
  }

  /** Any marks, forward advances and restarts in between do not disturb the order. */
  lemma {:induction false} FreshIndicesIncrease(s: State, ops: seq<Op>)
    requires s.policy == AlwaysFresh
    requires IsLegal(s, ops) && IsForward(s, ops)
    ensures StrictlyIncreases(Returned(s, ops))
    ensures forall i :: i in Returned(s, ops) ==> s.current <= i
    decreases ops
  {
    if ops != [] {
      FreshIndicesIncrease(Step(s, ops[0]), ops[1..]);
      if ops[0] == Request {
        FreshStepsForward(s);
        var rest := Returned(Step(s, ops[0]), ops[1..]);
        assert forall j :: 0 <= j < |rest| ==> rest[j] in rest;
      }
    }
  }

  lemma FreshStepsForward(s: State)
    requires s.policy == AlwaysFresh
    requires IsEnabled(s, Request)
    requires s.current < Step(s, Request).current
    ensures s.current <= RequestIndex(s) < Step(s, Request).current
  {
  }

  // ----- reuse and its end

  /** A rotation leaves the index it returns: while an open index lies above, the next request moves on. */
  lemma RotatedIndexIsLeft(s: State, open: u32)
    requires !s.policy.Manual?
    requires Rotates(s) && IsEnabled(s, Request)
    requires RequestIndex(s) < open && !IsAvoided(s.usage, open)
    ensures IsEnabled(Step(s, Request), Request)
    ensures RequestIndex(Step(s, Request)) > RequestIndex(s)
  {
    var s' := Step(s, Request);
    assert !IsAvoided(s'.usage, open);
    FreshIsLeast(s'.usage, s'.current, open);
  }

  /**
   A reusing policy hands out the same index twice in a row exactly when the first request
   did not rotate: after a rotation the counter already points past the index returned, so
   that index is not reused. An open index above it keeps the counter from wrapping.
   */
  lemma ReuseHoldsExactly(s: State, open: u32)
    requires s.policy == ReuseUntilReceived
    requires IsEnabled(s, Request)
    requires RequestIndex(s) < open && !IsAvoided(s.usage, open)
    ensures IsEnabled(Step(s, Request), Request)
    ensures RequestIndex(Step(s, Request)) == RequestIndex(s) <==> !UsageOf(s, s.current).received
  {
    assert !IsAvoided(Step(s, Request).usage, open);
    if Rotates(s) {
      RotatedIndexIsLeft(s, open);
    }
  }

  /**
   The same for the policy that counts shares. Without a rotation the index is repeated while
   its count stays below the limit, and once more if it was never shared or spent before.
   */
  lemma SharedReuseHoldsExactly(s: State, n: u32, open: u32)
    requires s.policy == ReuseUntilShared(n)
    requires IsEnabled(s, Request)
    requires RequestIndex(s) < open && !IsAvoided(s.usage, open)
    ensures IsEnabled(Step(s, Request), Request)
    ensures RequestIndex(Step(s, Request)) == RequestIndex(s) <==>
            var u := UsageOf(s, s.current);
            && (s.current in s.usage ==> u.shareCount < n && !u.received)
            && (u.shareCount + 1 < n || (u.shareCount == 0 && !u.spent))
  {
    var s' := Step(s, Request);
    assert !IsAvoided(s'.usage, open);
    if Rotates(s) {
      RotatedIndexIsLeft(s, open);
    }
  }

  // ----- the set of used indices

  /** Every index that a run returned or marked. */
  function Touched(s: State, ops: seq<Op>): set<u32>
    requires IsLegal(s, ops)
    decreases ops
  {
    if ops == [] then {}
    else
      var rest := Touched(Step(s, ops[0]), ops[1..]);
      match ops[0]
      case Request => {RequestIndex(s)} + rest
      case MarkShared(i) => {i} + rest
      case MarkReceived(i) => {i} + rest
      case MarkSpent(i) => {i} + rest
      case _ => rest
  }

  /** The used set is exactly that history, and unlike usage it survives persisting. */
  lemma {:induction false} UsedIsTheHistory(s: State, ops: seq<Op>)
    requires IsLegal(s, ops)
    ensures Final(s, ops).used == s.used + Touched(s, ops)
    decreases ops
  {
    if ops != [] {
      UsedIsTheHistory(Step(s, ops[0]), ops[1..]);
    }
  }

  // ----- the manual policy

  /** The current index at each request, moved by explicit advances only. */
  function CurrentAtRequests(current: u32, ops: seq<Op>): seq<u32>
    decreases ops
  {
    if ops == [] then []
    else
      match ops[0]
      case Request => [current] + CurrentAtRequests(current, ops[1..])
      case AdvanceTo(i) => CurrentAtRequests(i, ops[1..])
      case _ => CurrentAtRequests(current, ops[1..])
  }

  /** Under the manual policy every run is legal, and requests only ever return the current index. */
  lemma {:induction false} ManualReturnsCurrent(s: State, ops: seq<Op>)
    requires s.policy == Manual
    ensures IsLegal(s, ops)
    ensures Returned(s, ops) == CurrentAtRequests(s.current, ops)
    decreases ops
  {
    if ops != [] {
      ManualReturnsCurrent(Step(s, ops[0]), ops[1..]);
    }
  }

  // ----- what the highest index says

  /** The highest index was there before, or was returned, or was advanced to; advances never exceed it. */
  lemma {:induction false} HighestWasUsed(s: State, ops: seq<Op>)
    requires IsLegal(s, ops)
    ensures var h := Final(s, ops).highest;
            && s.highest <= h
            && (h == s.highest || h in Returned(s, ops) || AdvanceTo(h) in ops)
            && (forall i: u32 :: AdvanceTo(i) in ops ==> i <= h)
    decreases ops
  {
    if ops != [] {
      var s' := Step(s, ops[0]);
      HighestWasUsed(s', ops[1..]);
      assert ops == [ops[0]] + ops[1..];
      var h := Final(s, ops).highest;
      if h == s'.highest != s.highest && ops[0] == Request {
        assert Returned(s, ops)[0] == h;
      }
    }
  }

  /** Returned indices exceed it by at most one, and with fresh addresses not at all. */
  lemma {:induction false} HighestCoversReturned(s: State, ops: seq<Op>, i: u32)
    requires IsLegal(s, ops) && IsClose(s)
    requires i in Returned(s, ops)
    ensures i <= Final(s, ops).highest + 1
    ensures s.policy == AlwaysFresh ==> i <= Final(s, ops).highest
    decreases ops
  {
    var s' := Step(s, ops[0]);
    HighestWasUsed(s', ops[1..]);
    if i in Returned(s', ops[1..]) {
      HighestCoversReturned(s', ops[1..], i);
    }
  }

  /** Under the manual policy the counter itself stays covered, and so does all it returns. */
  lemma {:induction false} ManualIsCovered(s: State, ops: seq<Op>, i: u32)
    requires s.policy == Manual && s.current <= s.highest
    requires IsLegal(s, ops)
    requires i in Returned(s, ops)
    ensures i <= Final(s, ops).highest
    decreases ops
  {
    var s' := Step(s, ops[0]);
    HighestWasUsed(s', ops[1..]);
    if i in Returned(s', ops[1..]) {
      ManualIsCovered(s', ops[1..], i);
    }
  }

  /** A reusing policy can hand out index 2 while index 1 counts as the highest used. */
  lemma HighestLagsByOne(policy: Policy)
    requires policy.ReuseUntilReceived? || policy.ReuseUntilShared?
    ensures var ops := [MarkReceived(0), Request, Request];
            && IsLegal(New(policy), ops)
            && Returned(New(policy), ops) == [1, 2]
            && Final(New(policy), ops).highest == 1
  {
    var s1 := Step(New(policy), MarkReceived(0));
    assert IsAvoided(s1.usage, 0) && !IsAvoided(s1.usage, 1);
    FreshIsLeast(s1.usage, 0, 1);
    var s2 := Step(s1, Request);
    var s3 := Step(s2, Request);
    var ops := [MarkReceived(0), Request, Request];
    assert ops[1..] == [Request, Request];
    assert [Request, Request][1..] == [Request] && [Request][1..] == [];
    assert IsLegal(s2, [Request]) && Returned(s2, [Request]) == [2] && Final(s2, [Request]) == s3;
    assert IsLegal(s1, [Request, Request]) && Returned(s1, [Request, Request]) == [1, 2];
  }

  /** The highest used index covers every returned one in all runs exactly for the policies that do not reuse. */
  lemma HighestCoversExactly(policy: Policy)
    ensures (forall ops: seq<Op>, i: u32 ::
               IsLegal(New(policy), ops) && i in Returned(New(policy), ops) ==> i <= Final(New(policy), ops).highest)
            <==> policy == AlwaysFresh || policy == Manual
  {
    if policy == AlwaysFresh || policy == Manual {
      forall ops: seq<Op>, i: u32 | IsLegal(New(policy), ops) && i in Returned(New(policy), ops)
        ensures i <= Final(New(policy), ops).highest
      {
        if policy == Manual {
          ManualIsCovered(New(policy), ops, i);
        } else {
          HighestCoversReturned(New(policy), ops, i);
        }
      }
    } else {
      HighestLagsByOne(policy);
      assert 2 in [1, 2];
    }
  }

  // ----- what is recorded of each index

  function Marks(ops: seq<Op>, i: u32): nat {
    if ops == [] then 0 else (if ops[0] == MarkShared(i) then 1 else 0) + Marks(ops[1..], i)
  }

  /** Between restores an index has received or spent exactly if it was marked so. */
  lemma {:induction false} FlagsAreTheHistory(s: State, ops: seq<Op>, i: u32)
    requires IsLegal(s, ops) && PersistAndRestore !in ops
    ensures UsageOf(Final(s, ops), i).received <==> UsageOf(s, i).received || MarkReceived(i) in ops
    ensures UsageOf(Final(s, ops), i).spent <==> UsageOf(s, i).spent || MarkSpent(i) in ops
    decreases ops
  {
    if ops != [] {
      assert ops == [ops[0]] + ops[1..];
      FlagsAreTheHistory(Step(s, ops[0]), ops[1..], i);
    }
  }

  /** How often one operation shares an index. */
  function SharesOf(s: State, op: Op, i: u32): nat
    requires IsEnabled(s, op)
  {
    if op == MarkShared(i) || (op == Request && RequestIndex(s) == i) then 1 else 0
  }

  lemma ShareStep(s: State, op: Op, i: u32, more: nat)
    requires IsEnabled(s, op) && op != PersistAndRestore
    ensures (UsageOf(Step(s, op), i).shareCount + more) % U32_LIMIT ==
            (UsageOf(s, i).shareCount + SharesOf(s, op, i) + more) % U32_LIMIT
  {
    var shares: int := UsageOf(s, i).shareCount;
    assert UsageOf(Step(s, op), i).shareCount == if SharesOf(s, op, i) == 1 then Next(shares) else shares;
    if shares + 1 == U32_LIMIT {
      assert (more + U32_LIMIT) % U32_LIMIT == more % U32_LIMIT;
    }
  }

  lemma CountStep(s: State, ops: seq<Op>, i: u32)
    requires IsLegal(s, ops) && ops != []
    ensures Count(Returned(s, ops), i) + Marks(ops, i) ==
            SharesOf(s, ops[0], i) + Count(Returned(Step(s, ops[0]), ops[1..]), i) + Marks(ops[1..], i)
  {
    var rest := Returned(Step(s, ops[0]), ops[1..]);
    if ops[0] == Request {
      assert ([RequestIndex(s)] + rest)[1..] == rest;
    }
  }

  /** Between restores an index is shared once for every time it is returned or marked shared, as a 32-bit count. */
  lemma {:induction false} SharesAreTheHistory(s: State, ops: seq<Op>, i: u32)
    requires IsLegal(s, ops) && PersistAndRestore !in ops
    ensures UsageOf(Final(s, ops), i).shareCount ==
            (UsageOf(s, i).shareCount + Count(Returned(s, ops), i) + Marks(ops, i)) % U32_LIMIT
    decreases ops
  {
    if ops != [] {
      assert ops == [ops[0]] + ops[1..];
      var s' := Step(s, ops[0]);
      SharesAreTheHistory(s', ops[1..], i);
      ShareStep(s, ops[0], i, Count(Returned(s', ops[1..]), i) + Marks(ops[1..], i));
      CountStep(s, ops, i);
    }
  }
}
