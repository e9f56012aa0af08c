/** The funding and redeem builders of script-locked trades. */
module QortalPlans {
  import opened Base
  import opened Selection
  import opened SelectionTheorems
  import opened Fees
  import opened ShieldedBuilder
  import opened ShieldedTheorems
  import opened Qortal
  import Memo

  /** A funding plan; `inp.maxMoney` bounds transparent amounts only. */
  datatype FundingPlan = FundingPlan(
    inp: Inputs,
    activation: Option<u32>,
    recipients: seq<Recipient>,
    fee: u64,
    script: seq<byte>,
    scriptEach: bool)

  datatype Funding = Funding(
    spent: seq<Note>, spends: seq<Spend>, shielded: seq<LedgerOutput>, vout: seq<TxOut>, anchor: Anchor)

  function PaidShielded(recipients: seq<Recipient>): seq<Output> {
    if recipients == [] then []
    else match recipients[0]
      case ToShielded(pool, address, amount, memo) =>
        [Output(pool, address, amount, memo)] + PaidShielded(recipients[1..])
      case ToTransparent(_, _) => PaidShielded(recipients[1..])
  }

  /** Change is routed by the rules of the shielded builder. */
  function Routing(p: FundingPlan): Settings {
    Settings(PaidShielded(p.recipients), Some(p.fee), p.activation, 0)
  }

  /** Shielded change is not subject to the transparent amount bound. */
  function RoutingInputs(p: FundingPlan): Inputs {
    p.inp.(maxMoney := U64_MAX)
  }

  predicate UsesIronwood(p: FundingPlan, notes: seq<Note>) {
    IronwoodChange(Routing(p), notes)
  }

  function LayoutOf(p: FundingPlan, notes: seq<Note>): Layout {
    Layout(Some(p.script), p.scriptEach, UsesIronwood(p, notes), p.inp.keys.sapling, p.inp.keys.ironwood, p.inp.maxMoney)
  }

  /** Selection and dust for a plan whose recipients add up. */
  function FundingSelection(p: FundingPlan): Result<SelectionResult, Error> {
    match RecipientTotal(p.recipients)
    case Err(e) => Err(e)
    case Ok(total) =>
      if total + p.fee > U64_MAX then Err(AmountOverflow)
      else Select(SmallestFirst, p.inp.notes, total, p.fee)
  }

  /** Everything a plan needs to complete. */
  ghost predicate IsFundable(p: FundingPlan) {
    && p.script != []
    && FundingSelection(p).Ok?
    && var sel := FundingSelection(p).value;
       && ApplyDustPolicy(p.fee, sel.change).Ok?
       && var change := ApplyDustPolicy(p.fee, sel.change).value.change;
          && (UsesIronwood(p, sel.notes) ==>
                IsIronwoodActive(p.activation, p.inp.targetHeight) && p.inp.ironwoodAnchor.Some?)
          && (exists a :: Anchored(sel.notes, Sapling, a))
          && (forall n :: n in sel.notes ==> IsSpendable(p.inp.keys, n))
          && ArePayable(LayoutOf(p, sel.notes), p.recipients)
          && (change > 0 && UsesIronwood(p, sel.notes) ==> p.inp.keys.ironwood.Some?)
  }

  /** `f` spends the selected notes and pays the recipients, the scripts and the change. */
  ghost predicate IsFundingOf(f: Funding, p: FundingPlan) {
    && FundingSelection(p).Ok?
    && var sel := FundingSelection(p).value;
       && ApplyDustPolicy(p.fee, sel.change).Ok?
       && var change := ApplyDustPolicy(p.fee, sel.change).value.change;
          && f.spent == sel.notes
          && IsSpendOf(f.spends, p.inp.keys, f.spent)
          && ArePayable(LayoutOf(p, f.spent), p.recipients)
          && f.vout == Laid(LayoutOf(p, f.spent), p.recipients).vout
          && (change > 0 ==> CanRouteChange(Routing(p), RoutingInputs(p), f.spent))
          && f.shielded == Laid(LayoutOf(p, f.spent), p.recipients).shielded +
               (if change > 0 then [ChangeOutput(Routing(p), RoutingInputs(p), f.spent, change)] else [])
          && (if SpendsFrom(f.spent, Sapling) then Anchored(f.spent, Sapling, f.anchor)
              else f.anchor == p.inp.emptyTree)
  }

  lemma FundingAddsUp(p: FundingPlan)
    requires FundingSelection(p).Ok?
    ensures var sel := FundingSelection(p).value;
            && sel.total == Sum(sel.notes) == AmountSum(p.recipients) + p.fee + sel.change
            && (sel.change > 0 ==> sel.notes != [])
            && (forall n :: n in sel.notes ==> n in p.inp.notes)
  {
    TotalIsSum(0, p.recipients);
    SelectionSound(SmallestFirst, p.inp.notes, AmountSum(p.recipients), p.fee);
    var sel := FundingSelection(p).value;
    if sel.notes == [] {
      assert Sum(sel.notes) == 0;
    }
    forall n | n in sel.notes ensures n in p.inp.notes {
      assert n in multiset(sel.notes) && n in multiset(p.inp.notes);
    }
  }

  /** Errors that the checks before them make impossible. */
  predicate IsDeadFundingError(e: Error) {
    e == FundsBelowTotal
    || e == TransactionBuild(LegacyChangeNeedsSaplingSpend)
    || e == TransactionBuild(MissingScript)
    || e == TransactionBuild(IronwoodBuilderMissing)
  }

  /** A recipient in the Ironwood pool makes the plan use Ironwood. */
  lemma {:induction false} IronwoodRecipientIsSeen(recipients: seq<Recipient>, to: Recipient)
    requires to in recipients && to.ToShielded? && to.pool == Ironwood
    ensures PaysTo(PaidShielded(recipients), Ironwood)
  {
    var paid := PaidShielded(recipients);
    if recipients[0] == to {
      assert paid[0].pool == Ironwood;
    } else {
      IronwoodRecipientIsSeen(recipients[1..], to);
      var rest := PaidShielded(recipients[1..]);
      var i :| 0 <= i < |rest| && rest[i].pool == Ironwood;
      if recipients[0].ToShielded? {
        assert paid[i + 1].pool == Ironwood;
      }
    }
  }

  /** Script, totals, selection and dust. */
  method PlanFunds(p: FundingPlan) returns (r: Result<(seq<Note>, u64), Error>)
    ensures r.Ok? <==>
            && p.script != []
            && FundingSelection(p).Ok?
            && ApplyDustPolicy(p.fee, FundingSelection(p).value.change).Ok?
    ensures r.Ok? ==>
              && r.value.0 == FundingSelection(p).value.notes
              && r.value.1 == ApplyDustPolicy(p.fee, FundingSelection(p).value.change).value.change
    ensures r.Err? ==> !IsDeadFundingError(r.error)
  {
    if p.script == [] {
      return Err(TransactionBuild(EmptyScript));
    }
    var total := RecipientTotal(p.recipients);
    if total.Err? {
      TotalIsSum(0, p.recipients);
      return Err(total.error);
    }
    if total.value + p.fee > U64_MAX {
      return Err(AmountOverflow);
    }
    var selection := SelectNotes(SmallestFirst, p.inp.notes, total.value, p.fee);
    if selection.Err? {
      return Err(selection.error);
    }
    TotalIsSum(0, p.recipients);
    FundingAddsUp(p);
    if selection.value.total < total.value + p.fee {
      return Err(FundsBelowTotal);
    }
    var effective := ApplyDustPolicy(p.fee, selection.value.total - (total.value + p.fee));
    if effective.Err? {
      return Err(effective.error);
    }
    return Ok((selection.value.notes, effective.value.change));
  }

  /** Completes exactly the fundable plans. */
  method BuildFunding(p: FundingPlan) returns (r: Result<Funding, Error>)
    ensures r.Ok? <==> IsFundable(p)
    ensures r.Ok? ==> IsFundingOf(r.value, p)
    ensures r.Err? ==> !IsDeadFundingError(r.error)
  {
    var funds := PlanFunds(p);
    if funds.Err? {
      return Err(funds.error);
    }
    FundingAddsUp(p);
    r := AssembleFunding(p, funds.value.0, funds.value.1);
  }

  method AssembleFunding(p: FundingPlan, notes: seq<Note>, change: u64) returns (r: Result<Funding, Error>)
    requires change > 0 ==> notes != []
    requires change == 0 || change >= CHANGE_DUST_THRESHOLD
    ensures r.Ok? <==>
            && (UsesIronwood(p, notes) ==>
                  IsIronwoodActive(p.activation, p.inp.targetHeight) && p.inp.ironwoodAnchor.Some?)
            && (exists a :: Anchored(notes, Sapling, a))
            && (forall n :: n in notes ==> IsSpendable(p.inp.keys, n))
            && ArePayable(LayoutOf(p, notes), p.recipients)
            && (change > 0 && UsesIronwood(p, notes) ==> p.inp.keys.ironwood.Some?)
    ensures r.Ok? ==>
              && r.value.spent == notes
              && IsSpendOf(r.value.spends, p.inp.keys, notes)
              && r.value.vout == Laid(LayoutOf(p, notes), p.recipients).vout
              && (change > 0 ==> CanRouteChange(Routing(p), RoutingInputs(p), notes))
              && r.value.shielded == Laid(LayoutOf(p, notes), p.recipients).shielded +
                   (if change > 0 then [ChangeOutput(Routing(p), RoutingInputs(p), notes, change)] else [])
              && (if SpendsFrom(notes, Sapling) then Anchored(notes, Sapling, r.value.anchor)
                  else r.value.anchor == p.inp.emptyTree)
    ensures r.Err? ==> !IsDeadFundingError(r.error)
  {
    var usesIronwood := UsesIronwood(p, notes);
    if usesIronwood && !IsIronwoodActive(p.activation, p.inp.targetHeight) {
      return Err(TransactionBuild(IronwoodInactive));
    }
    var anchor := PoolAnchor(notes, Sapling);
    if anchor.Err? {
      return Err(anchor.error);
    }
    if usesIronwood && p.inp.ironwoodAnchor.None? {
      return Err(TransactionBuild(NoIronwoodAnchor));
    }
    var spends, first := AddSpends(p.inp.keys, notes);
    if spends.Err? {
      return Err(spends.error);
    }
    var outputs := AddOutputsAndScript(LayoutOf(p, notes), p.recipients);
    if outputs.Err? {
      if to :| to in p.recipients && to.ToShielded? && to.pool == Ironwood {
        IronwoodRecipientIsSeen(p.recipients, to);
      }
      return Err(outputs.error);
    }
    var changes := AddChange(Routing(p), RoutingInputs(p), notes, first, change);
    if changes.Err? {
      return Err(changes.error);
    }
    var root := if anchor.value.Some? then anchor.value.value else p.inp.emptyTree;
    return Ok(Funding(notes, spends.value, outputs.value.shielded + changes.value, outputs.value.vout, root));
  }

  /** Value in minus value out is the plan's fee plus the dust that was folded into it. */
  lemma FundingConserves(f: Funding, p: FundingPlan)
    requires IsFundingOf(f, p)
    ensures var dust := ApplyDustPolicy(p.fee, FundingSelection(p).value.change).value.dust;
            && dust < CHANGE_DUST_THRESHOLD
            && Sum(f.spent) == PayTotal(f.shielded) + VoutTotal(f.vout) + p.fee + dust
            && (IsHonest(p.inp.notes) ==>
                  SpendTotal(f.spends) == PayTotal(f.shielded) + VoutTotal(f.vout) + p.fee + dust)
  {
    var l := LayoutOf(p, f.spent);
    var sel := FundingSelection(p).value;
    var change := ApplyDustPolicy(p.fee, sel.change).value.change;
    FundingAddsUp(p);
    DustPolicyConserves(p.fee, sel.change);
    LaidWorth(l, p.recipients);
    PayTotalConcat(Laid(l, p.recipients).shielded,
      if change > 0 then [ChangeOutput(Routing(p), RoutingInputs(p), f.spent, change)] else []);
    SpendTotalIsInnerSum(f.spends, p.inp.keys, f.spent);
    if IsHonest(p.inp.notes) {
      HonestSums(f.spent);
    }
  }

  /** One script carrier per recipient, or exactly one; without them the recipients are paid in order. */
  lemma FundingLayout(f: Funding, p: FundingPlan)
    requires IsFundingOf(f, p)
    ensures Carriers(f.vout) == if p.scriptEach then |p.recipients| else 1
    ensures forall o :: o in f.vout && o.Carrier? ==> o == Carrier(0, p.script)
    ensures PaysInOrder(Payments(f.vout), p.recipients)
  {
    var l := LayoutOf(p, f.spent);
    LaidWorth(l, p.recipients);
    CarriersAreEmpty(l, p.recipients);
  }

  /** The plan's recipients include one in the Ironwood pool. */
  ghost predicate PaysIronwood(recipients: seq<Recipient>) {
    exists r :: r in recipients && r.ToShielded? && r.pool == Ironwood
  }

  lemma {:induction false} PaidShieldedSeen(recipients: seq<Recipient>)
    ensures PaysTo(PaidShielded(recipients), Ironwood) <==> PaysIronwood(recipients)
  {
    if r :| r in recipients && r.ToShielded? && r.pool == Ironwood {
      IronwoodRecipientIsSeen(recipients, r);
    } else if recipients != [] {
      assert recipients[0] in recipients && forall r :: r in recipients[1..] ==> r in recipients;
      PaidShieldedSeen(recipients[1..]);
      var all, rest := PaidShielded(recipients), PaidShielded(recipients[1..]);
      assert forall i :: 0 <= i < |rest| ==> rest[i].pool != Ironwood;
      assert recipients[0].ToShielded? ==> all[0].pool != Ironwood && all[1..] == rest;
    }
  }

  /** What each recipient must be for its output to be laid out in this plan. */
  ghost predicate ArePayableFrom(p: FundingPlan) {
    forall r :: r in p.recipients ==>
      if r.ToTransparent? then r.amount <= p.inp.maxMoney
      else r.memo.Some? && !r.memo.value.Empty? ==> |Memo.Content(r.memo.value)| <= 512
  }

  /**
   A plan completes exactly when it has a script, its recipients and fee add up, smallest-first
   selection succeeds, dust fits into the fee, the selected notes are complete and agree on
   their Sapling anchor, everything touching Ironwood finds it active with an anchor and, for
   change, a key, and every recipient can be paid.
   */
  lemma FundableExactly(p: FundingPlan)
    ensures IsFundable(p) <==>
              && p.script != []
              && AmountSum(p.recipients) + p.fee <= U64_MAX
              && var selected := Select(SmallestFirst, p.inp.notes, AmountSum(p.recipients), p.fee);
                 && selected.Ok?
                 && var notes, left := selected.value.notes, selected.value.change;
                    && (0 < left < 10_000 ==> p.fee + left <= 1_000_000)
                    && AreComplete(p.inp.keys, notes) && ShareSaplingRoot(notes)
                    && (PaysIronwood(p.recipients) || (exists n :: n in notes && n.pool == Ironwood) ==>
                          && p.activation.Some? && p.activation.value <= p.inp.targetHeight
                          && p.inp.ironwoodAnchor.Some?
                          && (left >= 10_000 ==> p.inp.keys.ironwood.Some?))
                    && ArePayableFrom(p)
  {
    TotalIsSum(0, p.recipients);
    if FundingSelection(p).Ok? {
      PayableFrom(p, FundingSelection(p).value.notes);
      FundableNotes(p, FundingSelection(p).value.notes);
      DustPolicyConserves(p.fee, FundingSelection(p).value.change);
    }
  }

  /** What the plan asks of the selected notes, written out. */
  lemma FundableNotes(p: FundingPlan, notes: seq<Note>)
    ensures UsesIronwood(p, notes) <==> PaysIronwood(p.recipients) || exists n :: n in notes && n.pool == Ironwood
    ensures (exists a :: Anchored(notes, Sapling, a)) && (forall n :: n in notes ==> IsSpendable(p.inp.keys, n)) <==>
            AreComplete(p.inp.keys, notes) && ShareSaplingRoot(notes)
  {
    SpendableIsComplete(p.inp.keys, notes);
    PaidShieldedSeen(p.recipients);
    PaysToSome(PaidShielded(p.recipients), Ironwood);
    TouchingIronwood(Routing(p), notes);
    if AreComplete(p.inp.keys, notes) {
      SaplingAnchored(p.inp.keys, notes);
    }
  }

  lemma PayableFrom(p: FundingPlan, notes: seq<Note>)
    ensures ArePayable(LayoutOf(p, notes), p.recipients) <==> ArePayableFrom(p)
  {
    var l := LayoutOf(p, notes);
    PaidShieldedSeen(p.recipients);
    forall r | r in p.recipients
      ensures IsPayable(l, r) <==>
              if r.ToTransparent? then r.amount <= p.inp.maxMoney
              else r.memo.Some? && !r.memo.value.Empty? ==> |Memo.Content(r.memo.value)| <= 512
    {
    }
  }

  /** The notes are the smallest-first selection for the recipients and the fee. */
  lemma FundingSpends(f: Funding, p: FundingPlan)
    requires IsFundingOf(f, p)
    ensures AmountSum(p.recipients) + p.fee <= U64_MAX
    ensures Select(SmallestFirst, p.inp.notes, AmountSum(p.recipients), p.fee).Ok?
    ensures f.spent == Select(SmallestFirst, p.inp.notes, AmountSum(p.recipients), p.fee).value.notes
  {
    TotalIsSum(0, p.recipients);
  }

  lemma FundingChangeIsRouted(f: Funding, p: FundingPlan, change: u64, c: LedgerOutput)
    requires IsFundingOf(f, p)
    requires change == ApplyDustPolicy(p.fee, FundingSelection(p).value.change).value.change > 0
    requires c == ChangeOutput(Routing(p), RoutingInputs(p), f.spent, change)
    ensures c.value == Sum(f.spent) - AmountSum(p.recipients) - p.fee >= 10_000
    ensures IsChangeFor(c, PaysIronwood(p.recipients), p.activation, p.inp, f.spent)
  {
    FundingAddsUp(p);
    DustPolicyConserves(p.fee, FundingSelection(p).value.change);
    PaidShieldedSeen(p.recipients);
    ChangeOutputIsRight(Routing(p), RoutingInputs(p), f.spent, change, PaysIronwood(p.recipients));
  }

  /**
   The shielded side of a funding: the recipients in order, then at most one change output,
   with the whole remainder and sent where change belongs.
   */
  lemma FundingShielded(f: Funding, p: FundingPlan)
    requires IsFundingOf(f, p)
    ensures var n := Shieldeds(p.recipients);
            && n <= |f.shielded| <= n + 1
            && ShieldsInOrder(f.shielded[..n], p.recipients, Some(p.inp.keys.sapling), p.inp.keys.ironwood)
            && (|f.shielded| > n ==>
                  && f.shielded[n].value == Sum(f.spent) - AmountSum(p.recipients) - p.fee >= 10_000
                  && IsChangeFor(f.shielded[n], PaysIronwood(p.recipients), p.activation, p.inp, f.spent))
  {
    var paid := Laid(LayoutOf(p, f.spent), p.recipients).shielded;
    var change := ApplyDustPolicy(p.fee, FundingSelection(p).value.change).value.change;
    ShieldedAreInOrder(LayoutOf(p, f.spent), p.recipients);
    assert f.shielded[..|paid|] == paid;
    if change > 0 {
      FundingChangeIsRouted(f, p, change, f.shielded[|paid|]);
    }
  }

  // ----- redeeming

  datatype RedeemPlan = RedeemPlan(
    activation: Option<u32>,
    targetHeight: u32,
    ironwoodAnchor: Option<Anchor>,
    coin: u64,
    recipients: seq<Recipient>,
    fee: u64,
    redeemScript: seq<byte>,
    viewer: Key,
    maxMoney: u64)

  predicate RedeemsToIronwood(p: RedeemPlan) {
    PaysTo(PaidShielded(p.recipients), Ironwood)
  }

  function RedeemLayout(p: RedeemPlan): Layout {
    Layout(None, false, RedeemsToIronwood(p), p.viewer, None, p.maxMoney)
  }

  /**
   The coin is spent completely: outputs plus fee must be worth exactly the coin, neither
   more nor less.
   */
  method BuildRedeem(p: RedeemPlan) returns (r: Result<Outputs, Error>)
    requires p.coin <= p.maxMoney
    ensures r.Ok? <==>
            && p.redeemScript != []
            && (RedeemsToIronwood(p) ==>
                  IsIronwoodActive(p.activation, p.targetHeight) && p.ironwoodAnchor.Some?)
            && ArePayable(RedeemLayout(p), p.recipients)
            && p.coin == AmountSum(p.recipients) + p.fee
    ensures r.Ok? ==>
              && p.coin == PayTotal(r.value.shielded) + VoutTotal(r.value.vout) + p.fee
              && PaysInOrder(r.value.vout, p.recipients)
              && ShieldsInOrder(r.value.shielded, p.recipients, Some(p.viewer), None)
              && r.value == Laid(RedeemLayout(p), p.recipients)
  {
    if p.redeemScript == [] {
      return Err(TransactionBuild(EmptyScript));
    }
    if RedeemsToIronwood(p) {
      if !IsIronwoodActive(p.activation, p.targetHeight) {
        return Err(TransactionBuild(IronwoodInactive));
      }
      if p.ironwoodAnchor.None? {
        return Err(TransactionBuild(NoIronwoodAnchor));
      }
    }
    r := AddOutputsAndScript(RedeemLayout(p), p.recipients);
    if r.Err? {
      return;
    }
    TotalIsSum(0, p.recipients);
    var total := RecipientTotal(p.recipients);
    if p.fee > p.maxMoney {
      return Err(InvalidAmount);
    }
    if total.Err? {
      return Err(total.error);
    }
    if total.value > p.maxMoney {
      return Err(InvalidAmount);
    }
    if total.value + p.fee > p.maxMoney {
      return Err(AmountOverflow);
    }
    if p.coin < total.value + p.fee {
      return Err(FundsBelowTotal);
    }
    if p.coin > total.value + p.fee {
      return Err(TransactionBuild(WouldBurnRemainder));
    }
    RedeemWorth(RedeemLayout(p), p.recipients);
  }

  /** Without a script there are no carriers to remove. */
  lemma RedeemWorth(l: Layout, recipients: seq<Recipient>)
    requires ArePayable(l, recipients) && l.script.None? && !l.scriptEach
    ensures var o := Laid(l, recipients);
            && PayTotal(o.shielded) + VoutTotal(o.vout) == AmountSum(recipients)
            && PaysInOrder(o.vout, recipients)
            && ShieldsInOrder(o.shielded, recipients, Some(l.saplingViewer), l.ironwoodViewer)
  {
    LaidWorth(l, recipients);
    ShieldedAreInOrder(l, recipients);
    NoCarriers(Laid(l, recipients).vout);
  }

  lemma {:induction false} NoCarriers(vout: seq<TxOut>)
    requires Carriers(vout) == 0
    ensures Payments(vout) == vout
  {
    if vout != [] {
      NoCarriers(vout[1..]);
    }
  }
}
