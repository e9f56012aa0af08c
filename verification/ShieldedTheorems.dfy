/** Conservation of value and backing of change, for every build that reaches the external library. */
module ShieldedTheorems {
  import opened Base
  import opened Selection
  import opened SelectionTheorems
  import opened Fees
  import opened ShieldedBuilder
  import Memo

  function SpendTotal(spends: seq<Spend>): nat {
    if spends == [] then 0 else spends[0].value + SpendTotal(spends[1..])
  }

  function PayTotal(outputs: seq<LedgerOutput>): nat {
    if outputs == [] then 0 else outputs[0].value + PayTotal(outputs[1..])
  }

  /** What the pool-level note carries, which is what a spend of the note is worth. */
  function InnerValue(n: Note): u64 {
    match n.pool
    case Sapling => if n.saplingNote.Some? then n.saplingNote.value.value else 0
    case Ironwood => if n.ironwoodNote.Some? then n.ironwoodNote.value.value else 0
  }

  function InnerSum(notes: seq<Note>): nat {
    if notes == [] then 0 else InnerValue(notes[0]) + InnerSum(notes[1..])
  }

  lemma {:induction false} SpendTotalIsInnerSum(spends: seq<Spend>, keys: Keys, notes: seq<Note>)
    requires IsSpendOf(spends, keys, notes)
    ensures SpendTotal(spends) == InnerSum(notes)
  {
    if notes != [] {
      SpendTotalIsInnerSum(spends[1..], keys, notes[1..]);
    }
  }

  // ----- what each spend and each output says

  /** The Sapling key of the group a note belongs to, or the default one. */
  ghost predicate IsGroupKey(key: Key, keys: Keys, n: Note) {
    if n.keyId.Some? && n.keyId.value in keys.saplingById then key == keys.saplingById[n.keyId.value]
    else key == keys.sapling
  }

  /** A spend of a complete note, worth what the note carries, with a key of the note's group. */
  ghost predicate IsSpentAs(x: Spend, keys: Keys, n: Note) {
    && x.pool == n.pool
    && match n.pool
       case Sapling =>
         && n.diversifier.Some? && n.saplingNote.Some? && n.saplingRoot.Some?
         && x.value == n.saplingNote.value.value
         && exists group ::
              && IsGroupKey(group, keys, n)
              && (x.key == group || x.key == keys.internalOf(group))
       case Ironwood =>
         && n.ironwoodNote.Some? && n.ironwoodPath.Some?
         && x.value == n.ironwoodNote.value.value
         && if n.keyId.Some? && n.keyId.value in keys.ironwoodById then x.key == keys.ironwoodById[n.keyId.value]
            else keys.ironwood == Some(x.key)
  }

  lemma SpendsCarryNotes(spends: seq<Spend>, keys: Keys, notes: seq<Note>, i: nat)
    requires IsSpendOf(spends, keys, notes)
    requires i < |notes|
    ensures |spends| == |notes| && IsSpentAs(spends[i], keys, notes[i])
  {
    assert spends[i] == SpendOf(keys, notes[i]);
    assert IsGroupKey(SaplingKey(keys, notes[i]), keys, notes[i]);
  }

  /**
   Every Sapling spend, in a build or in a funding plan, is made with a key that receives its
   note exactly when the note's key group has one, external before internal.
   */
  lemma SaplingSpendsAreReceived(spends: seq<Spend>, keys: Keys, notes: seq<Note>, i: nat, group: Key)
    requires IsSpendOf(spends, keys, notes)
    requires i < |notes| && notes[i].pool == Sapling
    requires IsGroupKey(group, keys, notes[i])
    ensures notes[i].diversifier.Some? && notes[i].saplingNote.Some?
    ensures var at, to := notes[i].diversifier.value, Some(notes[i].saplingNote.value.recipient);
            var internal := keys.internalOf(group);
            && (keys.addressOf(spends[i].key, at) == to <==>
                keys.addressOf(group, at) == to || keys.addressOf(internal, at) == to)
            && (keys.addressOf(group, at) == to ==> spends[i].key == group)
            && (spends[i].key == group || spends[i].key == internal)
  {
    assert spends[i] == SpendOf(keys, notes[i]);
  }

  /** Requested outputs reach the address asked for, with its amount and memo, in their pool. */
  lemma RequestedOutputsArePaid(b: Built, s: Settings, inp: Inputs, i: nat)
    requires OutputSum(s.outputs) <= U64_MAX
    requires forall o :: o in s.outputs ==> IsAcceptable(o)
    requires IsBuildOf(b, s, inp)
    requires i < |s.outputs|
    ensures |b.tx.outputs| >= |s.outputs|
    ensures var o, x := s.outputs[i], b.tx.outputs[i];
            && x.pool == o.pool
            && x.value == o.amount > 0
            && x.address == o.address
            && x.viewer == (if o.pool == Sapling then Some(inp.keys.sapling) else inp.keys.ironwood)
            && Memo.Carries(x.memo, o.memo)
  {
    assert s.outputs[i] in s.outputs;
    Memo.FieldCarries(s.outputs[i].memo);
  }

  /**
   Where change belongs: with Ironwood as soon as Ironwood is touched, else at the wallet's
   internal Sapling address once Ironwood is active, else at the first spent note's address.
   */
  ghost predicate IsChangeFor(
      c: LedgerOutput, paysIronwood: bool, activation: Option<u32>, inp: Inputs, notes: seq<Note>)
  {
    && c.memo == Memo.NoMemo
    && if paysIronwood || exists n :: n in notes && n.pool == Ironwood then
         && inp.keys.ironwood.Some?
         && c.pool == Ironwood
         && c.viewer == inp.keys.ironwood
         && c.address == inp.ironwoodInternal(inp.keys.ironwood.value, inp.changeIndex)
       else if activation.Some? && activation.value <= inp.targetHeight then
         && c.pool == Sapling
         && c.viewer == Some(inp.keys.sapling)
         && c.address == inp.saplingInternal(inp.keys.sapling, inp.changeIndex)
       else
         && c.pool == Sapling
         && notes != [] && notes[0].saplingNote.Some?
         && c.address == notes[0].saplingNote.value.recipient
         && c.viewer.Some? && IsGroupKey(c.viewer.value, inp.keys, notes[0])
  }

  lemma ChangeOutputIsRight(s: Settings, inp: Inputs, notes: seq<Note>, change: u64, paysIronwood: bool)
    requires CanRouteChange(s, inp, notes) && notes != []
    requires paysIronwood <==> PaysTo(s.outputs, Ironwood)
    ensures ChangeOutput(s, inp, notes, change).value == change
    ensures IsChangeFor(ChangeOutput(s, inp, notes, change), paysIronwood, s.activation, inp, notes)
  {
    if n :| n in notes && n.pool == Ironwood {
      var i :| 0 <= i < |notes| && notes[i] == n;
      assert notes[i].pool == Ironwood;
    } else {
      assert forall i :: 0 <= i < |notes| ==> notes[i] in notes;
      assert !SpendsFrom(notes, Ironwood) && notes[0].pool == Sapling;
    }
  }

  lemma PaysToSome(outputs: seq<Output>, pool: Pool)
    ensures PaysTo(outputs, pool) <==> exists o :: o in outputs && o.pool == pool
  {
    if o :| o in outputs && o.pool == pool {
      var i :| 0 <= i < |outputs| && outputs[i] == o;
      assert outputs[i].pool == pool;
    }
    if i :| 0 <= i < |outputs| && outputs[i].pool == pool {
      assert outputs[i] in outputs;
    }
  }

  /** The change output has the whole remainder and goes where change belongs. */
  lemma ChangeIsRouted(b: Built, s: Settings, inp: Inputs)
    requires OutputSum(s.outputs) <= U64_MAX
    requires forall o :: o in s.outputs ==> IsAcceptable(o)
    requires IsBuildOf(b, s, inp)
    ensures |b.tx.outputs| == |s.outputs| ||
            (|b.tx.outputs| == |s.outputs| + 1
             && var c := b.tx.outputs[|s.outputs|];
                && c.value == Sum(b.spent) - OutputSum(s.outputs) - b.fee
                && IsChangeFor(c, exists o :: o in s.outputs && o.pool == Ironwood, s.activation, inp, b.spent))
  {
    if |b.tx.outputs| > |s.outputs| {
      var change := Settled(s, inp).value.change;
      PaysToSome(s.outputs, Ironwood);
      ChosenAddsUp(s, inp);
      DustPolicyConserves(BaseFee(s.feeOverride).value, Chosen(s, inp).value.change);
      ChangeOutputIsRight(s, inp, b.spent, change, exists o :: o in s.outputs && o.pool == Ironwood);
    }
  }

  /** Without a spend in a pool its anchor is the empty tree's, or the caller's, if the pool is paid to. */
  lemma AnchorsWithoutSpends(b: Built, s: Settings, inp: Inputs)
    requires OutputSum(s.outputs) <= U64_MAX
    requires forall o :: o in s.outputs ==> IsAcceptable(o)
    requires IsBuildOf(b, s, inp)
    ensures (forall n :: n in b.spent ==> n.pool == Ironwood) ==>
              b.tx.saplingAnchor ==
              if exists o :: o in s.outputs && o.pool == Sapling then Some(inp.emptyTree) else None
    ensures (forall n :: n in b.spent ==> n.pool == Sapling) ==>
              b.tx.ironwoodAnchor ==
              if exists o :: o in s.outputs && o.pool == Ironwood then inp.ironwoodAnchor else None
  {
    PaysToSome(s.outputs, Sapling);
    PaysToSome(s.outputs, Ironwood);
    assert forall i :: 0 <= i < |b.spent| ==> b.spent[i] in b.spent;
  }

  /**
   What is spent and what the fee is: smallest-first selection for the outputs and the base
   fee, followed by at most the allowed number of eligible extras; the fee is the base fee
   unless dust was added to it, and then there is no change.
   */
  lemma SpentAndFee(b: Built, s: Settings, inp: Inputs)
    requires OutputSum(s.outputs) <= U64_MAX
    requires forall o :: o in s.outputs ==> IsAcceptable(o)
    requires IsBuildOf(b, s, inp)
    ensures var base := if s.feeOverride.Some? then s.feeOverride.value else 10_000;
            && Select(SmallestFirst, inp.notes, OutputSum(s.outputs), base).Ok?
            && var plain := Select(SmallestFirst, inp.notes, OutputSum(s.outputs), base).value.notes;
               && plain <= b.spent
               && |b.spent| <= |plain| + s.extraLimit
               && (forall i :: |plain| <= i < |b.spent| ==> b.spent[i].eligible)
               && 10_000 <= base <= b.fee <= 1_000_000
               && (b.fee == base || (b.fee < base + 10_000 && |b.tx.outputs| == |s.outputs|))
  {
    var base := BaseFee(s.feeOverride).value;
    ConsolidationExtendsSelection(SmallestFirst, inp.notes, OutputSum(s.outputs), base, s.extraLimit);
    ChosenAddsUp(s, inp);
    DustPolicyConserves(base, Chosen(s, inp).value.change);
  }

  // ----- when a build goes through

  /** Every note has the data, and a key, that spending it takes. */
  ghost predicate AreComplete(keys: Keys, notes: seq<Note>) {
    forall n :: n in notes ==>
      match n.pool
      case Sapling => n.diversifier.Some? && n.saplingNote.Some? && n.saplingRoot.Some?
      case Ironwood =>
        && n.ironwoodNote.Some? && n.ironwoodPath.Some?
        && (keys.ironwood.Some? || (n.keyId.Some? && n.keyId.value in keys.ironwoodById))
  }

  ghost predicate ShareSaplingRoot(notes: seq<Note>) {
    forall m, n :: m in notes && n in notes && m.pool == Sapling && n.pool == Sapling ==> m.saplingRoot == n.saplingRoot
  }

  /** Ironwood notes have one anchor among them, which is the caller's if the caller gives one. */
  ghost predicate ShareIronwoodAnchor(notes: seq<Note>, given: Option<Anchor>) {
    && (forall n :: n in notes && n.pool == Ironwood ==>
          n.ironwoodAnchor.Some? && (given.Some? ==> n.ironwoodAnchor == given))
    && (forall m, n :: m in notes && n in notes && m.pool == Ironwood && n.pool == Ironwood ==>
          m.ironwoodAnchor == n.ironwoodAnchor)
  }

  lemma SaplingAnchored(keys: Keys, notes: seq<Note>)
    requires AreComplete(keys, notes)
    ensures (exists a :: Anchored(notes, Sapling, a)) <==> ShareSaplingRoot(notes)
  {
    if a :| Anchored(notes, Sapling, a) {
      forall n | n in notes && n.pool == Sapling ensures n.saplingRoot == Some(a) {
        var i :| 0 <= i < |notes| && notes[i] == n;
        assert AnchorOf(notes[i]) == Some(a);
      }
    }
    if ShareSaplingRoot(notes) {
      if first :| first in notes && first.pool == Sapling {
        assert Anchored(notes, Sapling, first.saplingRoot.value);
      } else {
        assert Anchored(notes, Sapling, 0);
      }
    }
  }

  lemma IronwoodAnchored(inp: Inputs, notes: seq<Note>)
    ensures IronwoodAnchorAgrees(inp, notes) <==> ShareIronwoodAnchor(notes, inp.ironwoodAnchor)
  {
    if IronwoodAnchorAgrees(inp, notes) {
      var a :|
        && Anchored(notes, Ironwood, a)
        && (SpendsFrom(notes, Ironwood) && inp.ironwoodAnchor.Some? ==> inp.ironwoodAnchor == Some(a));
      forall n | n in notes && n.pool == Ironwood
        ensures n.ironwoodAnchor == Some(a) && SpendsFrom(notes, Ironwood)
      {
        var i :| 0 <= i < |notes| && notes[i] == n;
        assert AnchorOf(notes[i]) == Some(a);
      }
    }
    if ShareIronwoodAnchor(notes, inp.ironwoodAnchor) {
      if first :| first in notes && first.pool == Ironwood {
        assert Anchored(notes, Ironwood, first.ironwoodAnchor.value);
      } else {
        assert Anchored(notes, Ironwood, 0) && !SpendsFrom(notes, Ironwood);
      }
    }
  }

  lemma SpendableIsComplete(keys: Keys, notes: seq<Note>)
    ensures (forall n :: n in notes ==> IsSpendable(keys, n)) <==> AreComplete(keys, notes)
  {
  }

  /** The transaction touches Ironwood with an output or a spend. */
  ghost predicate TouchesIronwood(outputs: seq<Output>, notes: seq<Note>) {
    (exists o :: o in outputs && o.pool == Ironwood) || exists n :: n in notes && n.pool == Ironwood
  }

  lemma TouchingIronwood(s: Settings, notes: seq<Note>)
    ensures IronwoodChange(s, notes) <==> TouchesIronwood(s.outputs, notes)
  {
    PaysToSome(s.outputs, Ironwood);
    if n :| n in notes && n.pool == Ironwood {
      var i :| 0 <= i < |notes| && notes[i] == n;
      assert notes[i].pool == Ironwood;
    }
    assert forall i :: 0 <= i < |notes| ==> notes[i] in notes;
  }

  /**
   A build goes through exactly when the fee is in range, smallest-first selection succeeds,
   its dust fits into the fee, the selected notes are complete and agree on their anchors, no
   amount is out of range, and Ironwood change has a key to return to.
   */
  lemma BuildableExactly(s: Settings, inp: Inputs)
    requires OutputSum(s.outputs) <= U64_MAX
    ensures var base := if s.feeOverride.Some? then s.feeOverride.value else 10_000;
            IsBuildable(s, inp) <==>
              && 10_000 <= base <= 1_000_000
              && var selected := SelectConsolidating(SmallestFirst, inp.notes, OutputSum(s.outputs), base, s.extraLimit);
                 && selected.Ok?
                 && var notes, left := selected.value.notes, selected.value.change;
                    && (0 < left < 10_000 ==> base + left <= 1_000_000)
                    && AreComplete(inp.keys, notes)
                    && ShareSaplingRoot(notes) && ShareIronwoodAnchor(notes, inp.ironwoodAnchor)
                    && (forall o :: o in s.outputs ==> o.amount <= inp.maxMoney)
                    && (if left < 10_000 then base + left <= inp.maxMoney
                        else
                          && base <= inp.maxMoney && left <= inp.maxMoney
                          && (TouchesIronwood(s.outputs, notes) ==> inp.keys.ironwood.Some?))
  {
    if BaseFee(s.feeOverride).Ok? && Chosen(s, inp).Ok? {
      AssemblableNotes(s, inp, Chosen(s, inp).value.notes);
      TouchingIronwood(s, Chosen(s, inp).value.notes);
      DustPolicyConserves(BaseFee(s.feeOverride).value, Chosen(s, inp).value.change);
    }
  }

  /** What assembling asks of the selected notes, written out. */
  lemma AssemblableNotes(s: Settings, inp: Inputs, notes: seq<Note>)
    ensures (exists a :: Anchored(notes, Sapling, a)) && IronwoodAnchorAgrees(inp, notes)
              && (forall n :: n in notes ==> IsSpendable(inp.keys, n)) <==>
            AreComplete(inp.keys, notes) && ShareSaplingRoot(notes) && ShareIronwoodAnchor(notes, inp.ironwoodAnchor)
  {
    SpendableIsComplete(inp.keys, notes);
    IronwoodAnchored(inp, notes);
    if AreComplete(inp.keys, notes) {
      SaplingAnchored(inp.keys, notes);
    }
  }

  // ----- conservation

  lemma {:induction false} PayTotalConcat(a: seq<LedgerOutput>, b: seq<LedgerOutput>)
    ensures PayTotal(a + b) == PayTotal(a) + PayTotal(b)
  {
    if a == [] {
      assert a + b == b;
    } else {
      PayTotalConcat(a[1..], b);
      assert (a + b)[1..] == a[1..] + b;
    }
  }

  lemma {:induction false} RequestedTotal(paid: seq<LedgerOutput>, keys: Keys, outputs: seq<Output>)
    requires forall o :: o in outputs ==> IsAcceptable(o)
    requires |paid| == |outputs|
    requires forall i :: 0 <= i < |outputs| ==> paid[i] == OutputOf(keys, outputs[i])
    ensures PayTotal(paid) == OutputSum(outputs)
  {
    if outputs != [] {
      assert OutputOf(keys, outputs[0]).value == outputs[0].amount;
      forall i | 0 <= i < |outputs| - 1 ensures paid[1..][i] == OutputOf(keys, outputs[1..][i]) {
        assert outputs[1..][i] == outputs[i + 1];
      }
      RequestedTotal(paid[1..], keys, outputs[1..]);
    }
  }

  lemma PaidTotal(outputs: seq<LedgerOutput>, s: Settings, inp: Inputs, notes: seq<Note>, change: u64)
    requires forall o :: o in s.outputs ==> IsAcceptable(o)
    requires IsOutputOf(outputs, s, inp, notes, change)
    ensures PayTotal(outputs) == OutputSum(s.outputs) + change
  {
    var requested, rest := outputs[..|s.outputs|], outputs[|s.outputs|..];
    RequestedTotal(requested, inp.keys, s.outputs);
    PayTotalConcat(requested, rest);
    assert outputs == requested + rest;
    if change > 0 {
      assert rest == [ChangeOutput(s, inp, notes, change)];
    }
  }

  /**
   Outputs and fee together are worth exactly what the selected notes are recorded as, so
   the ledger balances exactly when the recorded values are the values the spends carry.
   */
  lemma BuildConserves(b: Built, s: Settings, inp: Inputs)
    requires OutputSum(s.outputs) <= U64_MAX
    requires forall o :: o in s.outputs ==> IsAcceptable(o)
    requires IsBuildOf(b, s, inp)
    ensures PayTotal(b.tx.outputs) + b.fee == Sum(b.spent)
    ensures SpendTotal(b.tx.spends) == PayTotal(b.tx.outputs) + b.fee <==> InnerSum(b.spent) == Sum(b.spent)
  {
    var e := Settled(s, inp).value;
    ChosenAddsUp(s, inp);
    DustPolicyConserves(BaseFee(s.feeOverride).value, Chosen(s, inp).value.change);
    PaidTotal(b.tx.outputs, s, inp, b.spent, e.change);
    SpendTotalIsInnerSum(b.tx.spends, inp.keys, b.spent);
  }

  /** A wallet whose notes are recorded at their own value. */
  ghost predicate IsHonest(notes: seq<Note>) {
    forall n :: n in notes ==> InnerValue(n) == n.value
  }

  lemma {:induction false} HonestSums(notes: seq<Note>)
    requires IsHonest(notes)
    ensures InnerSum(notes) == Sum(notes)
  {
    if notes != [] {
      HonestSums(notes[1..]);
    }
  }

  /** With honestly recorded notes every build balances to the last unit. */
  lemma HonestBuildBalances(b: Built, s: Settings, inp: Inputs)
    requires OutputSum(s.outputs) <= U64_MAX
    requires forall o :: o in s.outputs ==> IsAcceptable(o)
    requires IsBuildOf(b, s, inp)
    requires IsHonest(inp.notes)
    ensures SpendTotal(b.tx.spends) == PayTotal(b.tx.outputs) + b.fee
  {
    ConsolidationSound(
      SmallestFirst, inp.notes, OutputSum(s.outputs), BaseFee(s.feeOverride).value, s.extraLimit);
    forall n | n in b.spent ensures InnerValue(n) == n.value {
      assert n in multiset(b.spent) && n in multiset(inp.notes);
    }
    HonestSums(b.spent);
    BuildConserves(b, s, inp);
  }

  /** The fee stays in range, and there is a change output exactly for change worth having. */
  lemma FeeAndChangeInRange(b: Built, s: Settings, inp: Inputs)
    requires OutputSum(s.outputs) <= U64_MAX
    requires forall o :: o in s.outputs ==> IsAcceptable(o)
    requires IsBuildOf(b, s, inp)
    ensures FeeInRange(b.fee)
    ensures |s.outputs| <= |b.tx.outputs| <= |s.outputs| + 1
    ensures |b.tx.outputs| > |s.outputs| ==>
              var change := b.tx.outputs[|s.outputs|].value;
              change == Settled(s, inp).value.change >= CHANGE_DUST_THRESHOLD
    ensures |b.tx.outputs| == |s.outputs| ==> Sum(b.spent) == OutputSum(s.outputs) + b.fee
  {
    ChosenAddsUp(s, inp);
    DustPolicyConserves(BaseFee(s.feeOverride).value, Chosen(s, inp).value.change);
  }

  /**
   Change is always backed. The legacy branch has a selected Sapling note to return to;
   nothing goes to Sapling without a Sapling anchor; Ironwood outputs have an Ironwood
   anchor unless the caller gave none and no Ironwood note was selected; and all selected
   notes of a pool witness to that pool's one anchor, the caller's if there is one.
   */
  lemma ChangeIsBacked(b: Built, s: Settings, inp: Inputs)
    requires OutputSum(s.outputs) <= U64_MAX
    requires forall o :: o in s.outputs ==> IsAcceptable(o)
    requires IsBuildOf(b, s, inp)
    ensures |b.tx.outputs| > |s.outputs| && LegacyChange(s, inp, b.spent) ==>
              exists n :: n in b.spent && n.pool == Sapling && n.saplingNote.Some?
                && b.tx.outputs[|s.outputs|].address == n.saplingNote.value.recipient
    ensures forall o :: o in b.tx.outputs && o.pool == Sapling ==> b.tx.saplingAnchor.Some?
    ensures forall o :: o in b.tx.outputs && o.pool == Ironwood ==>
              (b.tx.ironwoodAnchor.None? <==> inp.ironwoodAnchor.None? && !SpendsFrom(b.spent, Ironwood))
    ensures forall n :: n in b.spent ==>
              if n.pool == Sapling then n.saplingRoot.Some? && n.saplingRoot == b.tx.saplingAnchor
              else n.ironwoodAnchor.Some? && n.ironwoodAnchor == b.tx.ironwoodAnchor
    ensures SpendsFrom(b.spent, Ironwood) && inp.ironwoodAnchor.Some? ==> b.tx.ironwoodAnchor == inp.ironwoodAnchor
  {
    ChosenAddsUp(s, inp);
    forall o | o in b.tx.outputs
      ensures o.pool == Sapling ==> b.tx.saplingAnchor.Some?
      ensures o.pool == Ironwood ==> IronwoodChange(s, b.spent)
    {
      OutputPool(b, s, inp, o);
    }
    forall n | n in b.spent
      ensures if n.pool == Sapling then n.saplingRoot.Some? && n.saplingRoot == b.tx.saplingAnchor
              else n.ironwoodAnchor.Some? && n.ironwoodAnchor == b.tx.ironwoodAnchor
    {
      var i :| 0 <= i < |b.spent| && b.spent[i] == n;
    }
  }

  /** An output of a pool was asked for, or is change that the pool backs. */
  lemma OutputPool(b: Built, s: Settings, inp: Inputs, o: LedgerOutput)
    requires forall x :: x in s.outputs ==> IsAcceptable(x)
    requires b.spent != [] && o in b.tx.outputs
    requires exists change :: IsOutputOf(b.tx.outputs, s, inp, b.spent, change)
    ensures PaysTo(s.outputs, o.pool) || SpendsFrom(b.spent, o.pool) || (o.pool == Ironwood && IronwoodChange(s, b.spent))
  {
    var change :| IsOutputOf(b.tx.outputs, s, inp, b.spent, change);
    var i :| 0 <= i < |b.tx.outputs| && b.tx.outputs[i] == o;
    if i < |s.outputs| {
      assert s.outputs[i].pool == o.pool;
    } else if o.pool == Sapling {
      assert b.spent[0].pool == Sapling;
    }
  }
}
