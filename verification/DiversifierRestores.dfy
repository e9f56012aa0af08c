/** What persisting and restoring costs: which indices known to have received funds can come back. */
module DiversifierRestores {
  import opened Base
  import opened Diversifier
  import opened DiversifierRuns

  /** Until the next restore an automatic policy does not return an index that has received funds. */
  lemma {:induction false} ReceiptsHoldUntilRestore(s: State, ops: seq<Op>, i: u32)
    requires s.policy != Manual
    requires UsageOf(s, i).received
    requires IsLegal(s, ops) && PersistAndRestore !in ops
    ensures i !in Returned(s, ops)
    decreases ops
  {
    if ops != [] {
      assert ops[0] in ops && forall op :: op in ops[1..] ==> op in ops;
      var s' := Step(s, ops[0]);
      ReceiptsHoldUntilRestore(s', ops[1..], i);
      if ops[0] == Request {
        assert IsAvoided(s.usage, i);
        assert RequestIndex(s) != i;
      }
    }
  }

  /** Nothing behind the counter comes back, and a fresh request cannot return the last index without wrapping. */
  lemma {:induction false} ReturnsStayAhead(s: State, ops: seq<Op>, i: u32)
    requires IsLegal(s, ops) && IsForward(s, ops)
    requires i in Returned(s, ops)
    ensures s.current <= i
    ensures s.policy == AlwaysFresh ==> i + 1 < U32_LIMIT
    decreases ops
  {
    if ops != [] && i in Returned(Step(s, ops[0]), ops[1..]) {
      ReturnsStayAhead(Step(s, ops[0]), ops[1..], i);
    }
  }

  /** The first request after a restore returns the counter's own index under every policy. */
  lemma FirstAfterRestore(s: State)
    ensures IsEnabled(Step(s, PersistAndRestore), Request)
    ensures RequestIndex(Step(s, PersistAndRestore)) == s.current
  {
    assert !IsAvoided(Step(s, PersistAndRestore).usage, s.current);
  }

  /** Any index can be made to come back, whatever is known about it. */
  lemma ReturnsAfterRestore(s: State, i: u32)
    ensures var ops := [AdvanceTo(i), PersistAndRestore, Request];
            && IsLegal(s, ops) && Returned(s, ops) == [i]
            && (IsForward(s, ops) <==> s.current <= i && (s.policy == AlwaysFresh ==> i + 1 < U32_LIMIT))
  {
    var s1 := Step(s, AdvanceTo(i));
    var s2 := Step(s1, PersistAndRestore);
    FirstAfterRestore(s1);
    var ops := [AdvanceTo(i), PersistAndRestore, Request];
    assert ops[1..] == [PersistAndRestore, Request];
    assert ops[1..][1..] == [Request];
    assert RequestIndex(s2) == i && [Request][1..] == [];
    assert IsLegal(s2, [Request]) && Returned(s2, [Request]) == [i];
    assert IsForward(s2, [Request]) <==> (s.policy == AlwaysFresh ==> i + 1 < U32_LIMIT);
    assert IsLegal(s1, ops[1..]);
  }

  /**
   What a service still knows at `s`. Without a restore an index that received funds is never
   returned. With restores it stays away in all forward runs exactly when the counter has
   passed it (or, for fresh addresses, when only a wrap could return it).
   */
  lemma ReceiptSurvivesExactly(s: State, i: u32)
    requires s.policy != Manual
    requires UsageOf(s, i).received
    ensures forall ops :: IsLegal(s, ops) && PersistAndRestore !in ops ==> i !in Returned(s, ops)
    ensures (forall ops :: IsLegal(s, ops) && IsForward(s, ops) ==> i !in Returned(s, ops)) <==>
            i < s.current || (s.policy == AlwaysFresh && i + 1 == U32_LIMIT)
  {
    forall ops | IsLegal(s, ops) && PersistAndRestore !in ops ensures i !in Returned(s, ops) {
      ReceiptsHoldUntilRestore(s, ops, i);
    }
    if i < s.current || (s.policy == AlwaysFresh && i + 1 == U32_LIMIT) {
      forall ops | IsLegal(s, ops) && IsForward(s, ops) ensures i !in Returned(s, ops) {
        if i in Returned(s, ops) {
          ReturnsStayAhead(s, ops, i);
        }
      }
    } else {
      ReturnsAfterRestore(s, i);
    }
  }

  /** The shortest example: index 0 receives funds, the service is restored, and 0 is handed out. */
  lemma RestoreForgetsReceipts()
    ensures var ops := [MarkReceived(0), PersistAndRestore, Request];
            IsLegal(New(AlwaysFresh), ops) && Returned(New(AlwaysFresh), ops) == [0]
  {
    var s1 := Step(New(AlwaysFresh), MarkReceived(0));
    FirstAfterRestore(s1);
    var ops := [MarkReceived(0), PersistAndRestore, Request];
    assert ops[1..] == [PersistAndRestore, Request];
    assert ops[1..][1..] == [Request];
  }
}
