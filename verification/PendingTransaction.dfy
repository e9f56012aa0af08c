/** The Sapling transaction builder up to the pending transaction: outputs, fee and accounting. */
module PendingTransaction {
  import opened Base
  import opened Selection
  import opened SelectionTheorems
  import opened Fees
  import Memo

  datatype Output = Output(address: Address, amount: u64, memo: Option<Memo.Memo>)

  datatype Pending = Pending(outputs: seq<Output>, input: u64, output: u64, fee: u64, change: u64)

  function OutputSum(outputs: seq<Output>): nat {
    if outputs == [] then 0 else outputs[0].amount + OutputSum(outputs[1..])
  }

  /** The checks every output passes when it is added. */
  predicate IsAcceptable(amount: u64, memo: Option<Memo.Memo>) {
    amount != 0 && (memo.Some? ==> Memo.Validate(memo.value).Ok?)
  }

  /** The amount sum is not checked by the builder, so the caller keeps it within 64 bits. */
  function BuildPending(outputs: seq<Output>, feeOverride: Option<u64>, notes: seq<Note>)
    : (r: Result<Pending, Error>)
    requires OutputSum(outputs) <= U64_MAX
  {
    var outputSum := OutputSum(outputs);
    match BaseFee(feeOverride)
    case Err(e) => Err(e)
    case Ok(estimated) =>
      match Select(SmallestFirst, notes, outputSum, estimated)
      case Err(e) => Err(e)
      case Ok(selection) =>
        var actual: u64 := if feeOverride.Some? then feeOverride.value else DEFAULT_FEE;
        if outputSum + actual > U64_MAX then Err(AmountOverflow)
        else if selection.total < outputSum + actual then Err(FundsBelowTotal)
        else
          match ApplyDustPolicy(actual, selection.total - (outputSum + actual))
          case Err(e) => Err(e)
          case Ok(e) => Ok(Pending(outputs, selection.total, outputSum, e.fee, e.change))
  }

  class TransactionBuilder {
    var outputs: seq<Output>
    var feeOverride: Option<u64>

    ghost predicate Valid()
      reads this
    {
      forall o :: o in outputs ==> IsAcceptable(o.amount, o.memo)
    }

    constructor ()
      ensures Valid() && outputs == [] && feeOverride == None
    {
      outputs, feeOverride := [], None;
    }

    /** Refuses zero amounts and overlong memos, and then leaves the builder as it was. */
    method AddOutput(address: Address, amount: u64, memo: Option<Memo.Memo>) returns (r: Result<(), Error>)
      requires Valid()
      modifies this`outputs
      ensures Valid()
      ensures r.Ok? <==> amount != 0 && (memo.Some? ==> |Memo.Content(memo.value)| <= 512)
      ensures r.Ok? ==> outputs == old(outputs) + [Output(address, amount, memo)]
      ensures r.Err? ==> outputs == old(outputs)
      ensures amount == 0 ==> r == Err(InvalidAmount)
    {
      if amount == 0 {
        return Err(InvalidAmount);
      }
      if memo.Some? && Memo.Validate(memo.value).Err? {
        return Err(Memo.Validate(memo.value).error);
      }
      outputs := outputs + [Output(address, amount, memo)];
      return Ok(());
    }

    method WithFee(fee: u64)
      modifies this`feeOverride
      ensures feeOverride == Some(fee)
    {
      feeOverride := Some(fee);
    }

    method Build(notes: seq<Note>) returns (r: Result<Pending, Error>)
      requires OutputSum(outputs) <= U64_MAX
      ensures r == BuildPending(outputs, feeOverride, notes)
    {
      var outputSum := OutputSum(outputs);
      var estimated := BaseFee(feeOverride);
      if estimated.Err? {
        return Err(estimated.error);
      }
      var selection := SelectNotes(SmallestFirst, notes, outputSum, estimated.value);
      if selection.Err? {
        return Err(selection.error);
      }
      var actual := if feeOverride.Some? then feeOverride.value else DEFAULT_FEE;
      if outputSum + actual > U64_MAX {
        return Err(AmountOverflow);
      }
      if selection.value.total < outputSum + actual {
        return Err(FundsBelowTotal);
      }
      var effective := ApplyDustPolicy(actual, selection.value.total - (outputSum + actual));
      if effective.Err? {
        return Err(effective.error);
      }
      return Ok(Pending(outputs, selection.value.total, outputSum, effective.value.fee, effective.value.change));
    }
  }

  // ----- what a pending transaction guarantees

  /**
   Money in equals money out, and only sensible fees and change come out: the fee is the
   override or the fixed fee, raised at most by dust, and then there is no change.
   */
  lemma PendingConserves(outputs: seq<Output>, feeOverride: Option<u64>, notes: seq<Note>)
    requires OutputSum(outputs) <= U64_MAX
    requires BuildPending(outputs, feeOverride, notes).Ok?
    ensures var p := BuildPending(outputs, feeOverride, notes).value;
            var base := if feeOverride.Some? then feeOverride.value else 10_000;
            && p.outputs == outputs
            && p.input == p.output + p.fee + p.change
            && p.output == OutputSum(outputs)
            && Select(SmallestFirst, notes, OutputSum(outputs), base).Ok?
            && p.input == Sum(Select(SmallestFirst, notes, OutputSum(outputs), base).value.notes)
            && 10_000 <= base <= p.fee <= 1_000_000
            && (p.change == 0 || p.change >= 10_000)
            && (p.fee == base || (p.change == 0 && p.fee < base + 10_000))
  {
    var fee := BaseFee(feeOverride).value;
    var s := Select(SmallestFirst, notes, OutputSum(outputs), fee).value;
    SelectionSound(SmallestFirst, notes, OutputSum(outputs), fee);
    DustPolicyConserves(fee, s.total - (OutputSum(outputs) + fee));
  }

  /** After a selection the only way left to fail is dust that the fee has no room for. */
  lemma PendingAfterSelection(outputs: seq<Output>, feeOverride: Option<u64>, notes: seq<Note>)
    requires OutputSum(outputs) <= U64_MAX
    requires BaseFee(feeOverride).Ok?
    requires Select(SmallestFirst, notes, OutputSum(outputs), BaseFee(feeOverride).value).Ok?
    ensures var fee := BaseFee(feeOverride).value;
            var change := Select(SmallestFirst, notes, OutputSum(outputs), fee).value.change;
            if DustDoesNotFit(fee, change)
            then BuildPending(outputs, feeOverride, notes) == Err(FeeTooHigh)
            else BuildPending(outputs, feeOverride, notes).Ok?
  {
    var fee := BaseFee(feeOverride).value;
    SelectionSound(SmallestFirst, notes, OutputSum(outputs), fee);
  }

  /**
   With funds that fit in 64 bits, building succeeds exactly when the fee is in range, the
   notes suffice, and no dust overflows the fee; up to `SAFE_FEE` that last clause is void.
   */
  lemma PendingSucceedsExactly(outputs: seq<Output>, feeOverride: Option<u64>, notes: seq<Note>)
    requires OutputSum(outputs) + MAX_FEE <= U64_MAX
    requires Sum(notes) <= U64_MAX
    ensures BuildPending(outputs, feeOverride, notes).Ok? <==>
            && BaseFee(feeOverride).Ok?
            && var fee := BaseFee(feeOverride).value;
               && CheckSufficient(notes, OutputSum(outputs) + fee)
               && (fee <= SAFE_FEE ||
                   !DustDoesNotFit(fee, SelectedChange(notes, OutputSum(outputs), fee)))
  {
    if BaseFee(feeOverride).Ok? {
      var fee := BaseFee(feeOverride).value;
      SuccessMatchesCheck(SmallestFirst, notes, OutputSum(outputs), fee);
      if Select(SmallestFirst, notes, OutputSum(outputs), fee).Ok? {
        PendingAfterSelection(outputs, feeOverride, notes);
      }
    }
  }

  /** The change that smallest-first selection leaves, when it succeeds. */
  function SelectedChange(notes: seq<Note>, target: u64, fee: u64): u64 {
    match Select(SmallestFirst, notes, target, fee)
    case Ok(s) => s.change
    case Err(_) => 0
  }

  /** `SAFE_FEE` is the best bound: every larger fee in range is refused for some sufficient wallet. */
  lemma SafeFeeIsTight(outputs: seq<Output>, fee: u64, note: Note)
    requires SAFE_FEE < fee <= MAX_FEE
    requires OutputSum(outputs) + fee + CHANGE_DUST_THRESHOLD <= U64_MAX
    requires note.value == OutputSum(outputs) + fee + CHANGE_DUST_THRESHOLD - 1
    ensures CheckSufficient([note], OutputSum(outputs) + fee)
    ensures BuildPending(outputs, Some(fee), [note]) == Err(FeeTooHigh)
  {
    assert StableSort(SmallestFirst, [note]) == [note] by {
      assert [note][..0] == [];
    }
    assert CoverCount([note], OutputSum(outputs) + fee) == 1;
    assert [note][..1] == [note];
    PendingAfterSelection(outputs, Some(fee), [note]);
  }
}
