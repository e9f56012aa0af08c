/**
 The Sapling and Ironwood transaction builder, up to the hand-over to the external
 transaction library, which is seen as a ledger of spends and outputs.
 */
module ShieldedBuilder {
  import opened Base
  import opened Selection
  import opened SelectionTheorems
  import opened Fees
  import Memo

  type Key = int

  datatype Output = Output(pool: Pool, address: Address, amount: u64, memo: Option<Memo.Memo>)

  /**
   The keys of the wallet, with two derivations of the Sapling library: the address of a key
   at a diversifier, if there is one, and the internal key that belongs to a key.
   */
  datatype Keys = Keys(
    sapling: Key,
    ironwood: Option<Key>,
    saplingById: map<KeyId, Key>,
    ironwoodById: map<KeyId, Key>,
    addressOf: (Key, int) -> Option<Address>,
    internalOf: Key -> Key)

  /**
   What the builder is given. Change addresses, the root of the empty Sapling tree and the
   largest amount the external library accepts are parameters.
   */
  datatype Inputs = Inputs(
    keys: Keys,
    notes: seq<Note>,
    targetHeight: u32,
    ironwoodAnchor: Option<Anchor>,
    changeIndex: u32,
    saplingInternal: (Key, u32) -> Address,
    ironwoodInternal: (Key, u32) -> Address,
    emptyTree: Anchor,
    maxMoney: u64)

  datatype Spend = Spend(pool: Pool, value: u64, key: Key)

  datatype LedgerOutput = LedgerOutput(
    pool: Pool, value: u64, address: Address, viewer: Option<Key>, memo: Memo.MemoBytes)

  datatype Ledger = Ledger(
    saplingAnchor: Option<Anchor>,
    ironwoodAnchor: Option<Anchor>,
    spends: seq<Spend>,
    outputs: seq<LedgerOutput>)

  /** The ledger and fee handed to the external build, and the notes it consumes. */
  datatype Built = Built(tx: Ledger, fee: u64, spent: seq<Note>)

  /** The settings of a builder. */
  datatype Settings = Settings(
    outputs: seq<Output>, feeOverride: Option<u64>, activation: Option<u32>, extraLimit: nat)

  // ----- pure parts

  function OutputSum(outputs: seq<Output>): nat {
    if outputs == [] then 0 else outputs[0].amount + OutputSum(outputs[1..])
  }

  predicate IsAcceptable(o: Output) {
    o.amount != 0 && (o.memo.Some? ==> Memo.Validate(o.memo.value).Ok?)
  }

  predicate IsIronwoodActive(activation: Option<u32>, height: u32) {
    activation.Some? && height >= activation.value
  }

  predicate SpendsFrom(notes: seq<Note>, pool: Pool) {
    exists i :: 0 <= i < |notes| && notes[i].pool == pool
  }

  predicate PaysTo(outputs: seq<Output>, pool: Pool) {
    exists i :: 0 <= i < |outputs| && outputs[i].pool == pool
  }

  /** The root a note witnesses to, if its data is complete enough to know it. */
  function AnchorOf(n: Note): Option<Anchor> {
    match n.pool
    case Sapling => if n.saplingNote.Some? then n.saplingRoot else None
    case Ironwood => n.ironwoodAnchor
  }

  /** Every note of the pool witnesses to `a`. */
  ghost predicate Anchored(notes: seq<Note>, pool: Pool, a: Anchor) {
    forall i :: 0 <= i < |notes| && notes[i].pool == pool ==> AnchorOf(notes[i]) == Some(a)
  }

  function SaplingKey(keys: Keys, n: Note): Key {
    if n.keyId.Some? && n.keyId.value in keys.saplingById then keys.saplingById[n.keyId.value]
    else keys.sapling
  }

  function IronwoodKey(keys: Keys, n: Note): Option<Key> {
    if n.keyId.Some? && n.keyId.value in keys.ironwoodById then Some(keys.ironwoodById[n.keyId.value])
    else keys.ironwood
  }

  /** A note can be spent when its pool's data and a key are there. */
  predicate IsSpendable(keys: Keys, n: Note) {
    match n.pool
    case Sapling => n.diversifier.Some? && n.saplingNote.Some? && n.saplingRoot.Some?
    case Ironwood => n.ironwoodNote.Some? && n.ironwoodPath.Some? && IronwoodKey(keys, n).Some?
  }

  /** What is missing for a spend, in the order in which it is looked for. */
  function SpendFault(keys: Keys, n: Note): (fault: Option<BuildFault>)
    ensures fault.None? <==> IsSpendable(keys, n)
    ensures fault.Some? ==> !IsDeadError(TransactionBuild(fault.value))
  {
    match n.pool
    case Sapling =>
      if n.diversifier.None? then Some(MissingDiversifier)
      else if n.saplingNote.None? then Some(MissingSaplingNote)
      else if n.saplingRoot.None? then Some(MissingSaplingPath)
      else None
    case Ironwood =>
      if n.ironwoodNote.None? then Some(MissingIronwoodNote)
      else if n.ironwoodPath.None? then Some(MissingIronwoodPath)
      else if IronwoodKey(keys, n).None? then Some(MissingIronwoodKey)
      else None
  }

  /** The key derives the address the note was received at. */
  predicate Receives(keys: Keys, key: Key, n: Note)
    requires n.pool == Sapling && IsSpendable(keys, n)
  {
    keys.addressOf(key, n.diversifier.value) == Some(n.saplingNote.value.recipient)
  }

  /** The key that a Sapling note is spent with: internal change notes need the internal key. */
  function SpendingKey(keys: Keys, n: Note): Key
    requires n.pool == Sapling && IsSpendable(keys, n)
  {
    var base := SaplingKey(keys, n);
    if !Receives(keys, base, n) && Receives(keys, keys.internalOf(base), n) then keys.internalOf(base) else base
  }

  function SpendOf(keys: Keys, n: Note): Spend
    requires IsSpendable(keys, n)
  {
    match n.pool
    case Sapling => Spend(Sapling, n.saplingNote.value.value, SpendingKey(keys, n))
    case Ironwood => Spend(Ironwood, n.ironwoodNote.value.value, IronwoodKey(keys, n).value)
  }

  function OutputOf(keys: Keys, o: Output): LedgerOutput
    requires IsAcceptable(o)
  {
    var memo := if o.memo.Some? then Memo.ToMemoBytes(o.memo.value).value else Memo.NoMemo;
    match o.pool
    case Sapling => LedgerOutput(Sapling, o.amount, o.address, Some(keys.sapling), memo)
    case Ironwood => LedgerOutput(Ironwood, o.amount, o.address, keys.ironwood, memo)
  }

  /** The ledger output pays what was asked for: amount, address and memo, in the right pool. */
  ghost predicate Pays(x: LedgerOutput, keys: Keys, o: Output) {
    && x.pool == o.pool
    && x.value == o.amount
    && x.address == o.address
    && x.viewer == (if o.pool == Sapling then Some(keys.sapling) else keys.ironwood)
    && Memo.Carries(x.memo, o.memo)
  }

  /** Every requested output is paid, in order, ahead of any change. */
  ghost predicate PaysAll(tx: Ledger, keys: Keys, outputs: seq<Output>) {
    |outputs| <= |tx.outputs| && forall i :: 0 <= i < |outputs| ==> Pays(tx.outputs[i], keys, outputs[i])
  }

  lemma OutputPays(keys: Keys, o: Output)
    requires IsAcceptable(o)
    ensures Pays(OutputOf(keys, o), keys, o)
  {
    Memo.FieldCarries(o.memo);
  }

  /** The first Sapling note, whose address legacy change returns to. */
  function FirstSapling(notes: seq<Note>): (r: Option<Note>)
    ensures r.Some? <==> SpendsFrom(notes, Sapling)
    ensures r.Some? ==> r.value in notes && r.value.pool == Sapling
  {
    if notes == [] then None
    else if notes[0].pool == Sapling then Some(notes[0])
    else
      var r := FirstSapling(notes[1..]);
      assert forall i :: 0 < i < |notes| ==> notes[i] == notes[1..][i - 1];
      r
  }

  /** Change goes to Ironwood as soon as the transaction touches Ironwood at all. */
  predicate IronwoodChange(s: Settings, notes: seq<Note>) {
    PaysTo(s.outputs, Ironwood) || SpendsFrom(notes, Ironwood)
  }

  predicate LegacyChange(s: Settings, inp: Inputs, notes: seq<Note>) {
    !IronwoodChange(s, notes) && !IsIronwoodActive(s.activation, inp.targetHeight)
  }

  predicate CanRouteChange(s: Settings, inp: Inputs, notes: seq<Note>) {
    if IronwoodChange(s, notes) then inp.keys.ironwood.Some?
    else LegacyChange(s, inp, notes) ==>
      FirstSapling(notes).Some? && FirstSapling(notes).value.saplingNote.Some?
  }

  function ChangeOutput(s: Settings, inp: Inputs, notes: seq<Note>, change: u64): LedgerOutput
    requires CanRouteChange(s, inp, notes)
  {
    if IronwoodChange(s, notes) then
      LedgerOutput(Ironwood, change, inp.ironwoodInternal(inp.keys.ironwood.value, inp.changeIndex),
                   inp.keys.ironwood, Memo.NoMemo)
    else if !LegacyChange(s, inp, notes) then
      LedgerOutput(Sapling, change, inp.saplingInternal(inp.keys.sapling, inp.changeIndex),
                   Some(inp.keys.sapling), Memo.NoMemo)
    else
      var first := FirstSapling(notes).value;
      LedgerOutput(Sapling, change, first.saplingNote.value.recipient,
                   Some(SaplingKey(inp.keys, first)), Memo.NoMemo)
  }

  // ----- what a completed build is

  /** The selection the settings lead to. */
  function Chosen(s: Settings, inp: Inputs): Result<SelectionResult, Error>
    requires OutputSum(s.outputs) <= U64_MAX
  {
    match BaseFee(s.feeOverride)
    case Err(e) => Err(e)
    case Ok(fee) => SelectConsolidating(SmallestFirst, inp.notes, OutputSum(s.outputs), fee, s.extraLimit)
  }

  /** Fee and change once dust is settled. */
  function Settled(s: Settings, inp: Inputs): Result<Effective, Error>
    requires OutputSum(s.outputs) <= U64_MAX
    requires Chosen(s, inp).Ok?
  {
    ApplyDustPolicy(BaseFee(s.feeOverride).value, Chosen(s, inp).value.change)
  }

  lemma ChosenAddsUp(s: Settings, inp: Inputs)
    requires OutputSum(s.outputs) <= U64_MAX
    requires Chosen(s, inp).Ok?
    ensures Chosen(s, inp).value.notes != []
    ensures Chosen(s, inp).value.total == Sum(Chosen(s, inp).value.notes)
    ensures Chosen(s, inp).value.total ==
            OutputSum(s.outputs) + BaseFee(s.feeOverride).value + Chosen(s, inp).value.change
  {
    ConsolidationSound(
      SmallestFirst, inp.notes, OutputSum(s.outputs), BaseFee(s.feeOverride).value, s.extraLimit);
  }

  ghost predicate IronwoodAnchorAgrees(inp: Inputs, notes: seq<Note>) {
    exists a :: Anchored(notes, Ironwood, a)
      && (SpendsFrom(notes, Ironwood) && inp.ironwoodAnchor.Some? ==> inp.ironwoodAnchor == Some(a))
  }

  /** What assembling a transaction from the chosen notes takes. */
  ghost predicate IsAssemblable(s: Settings, inp: Inputs, notes: seq<Note>, e: Effective) {
    && (exists a :: Anchored(notes, Sapling, a))
    && IronwoodAnchorAgrees(inp, notes)
    && (forall n :: n in notes ==> IsSpendable(inp.keys, n))
    && (forall o :: o in s.outputs ==> o.amount <= inp.maxMoney)
    && (e.change > 0 ==> e.change <= inp.maxMoney && (IronwoodChange(s, notes) ==> inp.keys.ironwood.Some?))
    && e.fee <= inp.maxMoney
  }

  /** Everything that must hold for a build to go through. */
  ghost predicate IsBuildable(s: Settings, inp: Inputs)
    requires OutputSum(s.outputs) <= U64_MAX
  {
    && Chosen(s, inp).Ok?
    && Settled(s, inp).Ok?
    && IsAssemblable(s, inp, Chosen(s, inp).value.notes, Settled(s, inp).value)
  }

  ghost predicate IsSaplingAnchor(anchor: Option<Anchor>, s: Settings, inp: Inputs, notes: seq<Note>) {
    if SpendsFrom(notes, Sapling) then anchor.Some? && Anchored(notes, Sapling, anchor.value)
    else anchor == if PaysTo(s.outputs, Sapling) then Some(inp.emptyTree) else None
  }

  ghost predicate IsIronwoodAnchor(anchor: Option<Anchor>, s: Settings, inp: Inputs, notes: seq<Note>) {
    if SpendsFrom(notes, Ironwood) then
      && anchor.Some?
      && Anchored(notes, Ironwood, anchor.value)
      && (inp.ironwoodAnchor.Some? ==> anchor == inp.ironwoodAnchor)
    else anchor == if PaysTo(s.outputs, Ironwood) then inp.ironwoodAnchor else None
  }

  /** `b` is the assembly of the chosen notes under the settled fee and change. */
  ghost predicate IsAssemblyOf(b: Built, s: Settings, inp: Inputs, notes: seq<Note>, e: Effective)
    requires forall o :: o in s.outputs ==> IsAcceptable(o)
  {
    && b.spent == notes
    && b.fee == e.fee
    && IsSpendOf(b.tx.spends, inp.keys, notes)
    && IsOutputOf(b.tx.outputs, s, inp, notes, e.change)
    && IsSaplingAnchor(b.tx.saplingAnchor, s, inp, notes)
    && IsIronwoodAnchor(b.tx.ironwoodAnchor, s, inp, notes)
  }

  /** `b` is the build that the settings and inputs call for. */
  ghost predicate IsBuildOf(b: Built, s: Settings, inp: Inputs)
    requires OutputSum(s.outputs) <= U64_MAX
    requires forall o :: o in s.outputs ==> IsAcceptable(o)
  {
    && Chosen(s, inp).Ok?
    && Settled(s, inp).Ok?
    && IsAssemblyOf(b, s, inp, Chosen(s, inp).value.notes, Settled(s, inp).value)
  }

  /** One spend per note, in order. */
  ghost predicate IsSpendOf(spends: seq<Spend>, keys: Keys, notes: seq<Note>) {
    && |spends| == |notes|
    && forall i :: 0 <= i < |notes| ==> IsSpendable(keys, notes[i]) && spends[i] == SpendOf(keys, notes[i])
  }

  /** One output per requested output, in order, then change if there is any. */
  ghost predicate IsOutputOf(
      outputs: seq<LedgerOutput>, s: Settings, inp: Inputs, notes: seq<Note>, change: u64)
    requires forall o :: o in s.outputs ==> IsAcceptable(o)
  {
    && |outputs| == |s.outputs| + (if change > 0 then 1 else 0)
    && (forall i :: 0 <= i < |s.outputs| ==> outputs[i] == OutputOf(inp.keys, s.outputs[i]))
    && (change > 0 ==>
          CanRouteChange(s, inp, notes) && outputs[|s.outputs|] == ChangeOutput(s, inp, notes, change))
  }

  // ----- the loops

  /** The single root that all selected notes of a pool witness to. */
  method PoolAnchor(notes: seq<Note>, pool: Pool) returns (r: Result<Option<Anchor>, Error>)
    ensures r.Ok? <==> exists a :: Anchored(notes, pool, a)
    ensures r.Ok? ==> (r.value.Some? <==> SpendsFrom(notes, pool))
    ensures r.Ok? && r.value.Some? ==> Anchored(notes, pool, r.value.value)
    ensures r.Err? ==> !IsDeadError(r.error)
  {
    var selected: Option<Anchor> := None;
    var i := 0;
    while i < |notes|
      invariant 0 <= i <= |notes|
      invariant selected.Some? <==> SpendsFrom(notes[..i], pool)
      invariant selected.Some? ==> Anchored(notes[..i], pool, selected.value)
    {
      var n := notes[i];
      ghost var before := notes[..i];
      if n.pool == pool {
        if pool == Sapling && n.saplingNote.None? {
          assert AnchorOf(notes[i]) == None;
          return Err(TransactionBuild(MissingSaplingNote));
        }
        var a := AnchorOf(n);
        if a.None? {
          assert AnchorOf(notes[i]) == None;
          return Err(TransactionBuild(if pool == Sapling then MissingSaplingPath else MissingIronwoodAnchor));
        }
        if selected.Some? {
          if selected != a {
            ghost var j :| 0 <= j < i && notes[..i][j].pool == pool;
            assert AnchorOf(notes[j]) == selected && AnchorOf(notes[i]) == a;
            return Err(TransactionBuild(if pool == Sapling then SaplingAnchorsDiffer else IronwoodAnchorsDiffer));
          }
        } else {
          selected := a;
        }
        assert notes[..i + 1][i].pool == pool;
      }
      i := i + 1;
      assert notes[..i] == before + [n];
    }
    assert notes[..|notes|] == notes;
    if selected.None? {
      assert Anchored(notes, pool, 0);
    }
    return Ok(selected);
  }

  /** Spends for the selected notes, and the note that legacy change would return to. */
  method AddSpends(keys: Keys, notes: seq<Note>)
    returns (r: Result<seq<Spend>, Error>, first: Option<Note>)
    ensures r.Ok? <==> forall n :: n in notes ==> IsSpendable(keys, n)
    ensures r.Ok? ==> IsSpendOf(r.value, keys, notes) && first == FirstSapling(notes)
    ensures r.Err? ==> !IsDeadError(r.error)
  {
    var spends: seq<Spend> := [];
    first := None;
    var i := 0;
    while i < |notes|
      invariant 0 <= i <= |notes|
      invariant IsSpendOf(spends, keys, notes[..i])
      invariant first.None? ==> FirstSapling(notes) == FirstSapling(notes[i..])
      invariant first.Some? ==> first == FirstSapling(notes)
    {
      var n := notes[i];
      assert notes[i..][1..] == notes[i + 1..];
      var fault := SpendFault(keys, n);
      if fault.Some? {
        assert notes[i] in notes;
        return Err(TransactionBuild(fault.value)), first;
      }
      if n.pool == Sapling && first.None? {
        first := Some(n);
      }
      spends := spends + [SpendOf(keys, n)];
      i := i + 1;
    }
    assert notes[..|notes|] == notes;
    return Ok(spends), first;
  }

  /** The requested outputs. */
  method AddOutputs(keys: Keys, outputs: seq<Output>, maxMoney: u64)
    returns (r: Result<seq<LedgerOutput>, Error>)
    requires forall o :: o in outputs ==> IsAcceptable(o)
    ensures r.Ok? <==> forall o :: o in outputs ==> o.amount <= maxMoney
    ensures r.Ok? ==>
              |r.value| == |outputs| && forall i :: 0 <= i < |outputs| ==> r.value[i] == OutputOf(keys, outputs[i])
    ensures r.Ok? ==> forall i :: 0 <= i < |outputs| ==> Pays(r.value[i], keys, outputs[i])
    ensures r.Err? ==> r.error == InvalidAmount
  {
    var ledger: seq<LedgerOutput> := [];
    var i := 0;
    while i < |outputs|
      invariant 0 <= i <= |outputs|
      invariant |ledger| == i
      invariant forall k :: 0 <= k < i ==> outputs[k].amount <= maxMoney
      invariant forall k :: 0 <= k < i ==> ledger[k] == OutputOf(keys, outputs[k])
    {
      var o := outputs[i];
      assert outputs[i] in outputs && IsAcceptable(o);
      var memo := if o.memo.Some? then Memo.ToMemoBytes(o.memo.value) else Ok(Memo.NoMemo);
      if memo.Err? {
        assert false;
      }
      if o.amount > maxMoney {
        return Err(InvalidAmount);
      }
      var viewer := if o.pool == Sapling then Some(keys.sapling) else keys.ironwood;
      ledger := ledger + [LedgerOutput(o.pool, o.amount, o.address, viewer, memo.value)];
      i := i + 1;
    }
    forall k | 0 <= k < |outputs| ensures Pays(ledger[k], keys, outputs[k]) {
      assert outputs[k] in outputs;
      OutputPays(keys, outputs[k]);
    }
    return Ok(ledger);
  }

  /** Errors that the checks before them make impossible. */
  predicate IsDeadError(e: Error) {
    e == AmountOverflow || e == FundsBelowTotal || e == InvalidMemo
    || e == TransactionBuild(LegacyChangeNeedsSaplingSpend)
    || e == TransactionBuild(NoSaplingAnchor) || e == TransactionBuild(NoIronwoodAnchor)
    || e == TransactionBuild(MissingScript) || e == TransactionBuild(IronwoodBuilderMissing)
  }

  method SelectFor(s: Settings, inp: Inputs, fee: u64) returns (r: Result<SelectionResult, Error>)
    requires OutputSum(s.outputs) <= U64_MAX
    ensures r == SelectConsolidating(SmallestFirst, inp.notes, OutputSum(s.outputs), fee, s.extraLimit)
    ensures r.Err? ==> !IsDeadError(r.error)
  {
    if s.extraLimit > 0 {
      r := SelectNotesWithConsolidation(SmallestFirst, inp.notes, OutputSum(s.outputs), fee, s.extraLimit);
    } else {
      r := SelectNotes(SmallestFirst, inp.notes, OutputSum(s.outputs), fee);
      ConsolidationLimitZero(SmallestFirst, inp.notes, OutputSum(s.outputs), fee);
    }
  }

  /** Fee, selection, change and dust: the notes to spend and what is left to pay. */
  method Account(s: Settings, inp: Inputs) returns (r: Result<(seq<Note>, Effective), Error>)
    requires OutputSum(s.outputs) <= U64_MAX
    ensures r.Ok? <==> Chosen(s, inp).Ok? && Settled(s, inp).Ok?
    ensures r.Ok? ==> r.value == (Chosen(s, inp).value.notes, Settled(s, inp).value)
    ensures r.Ok? ==> r.value.0 != [] && (r.value.1.change == 0 || r.value.1.change >= CHANGE_DUST_THRESHOLD)
    ensures r.Err? ==> !IsDeadError(r.error)
  {
    var outputSum := OutputSum(s.outputs);
    var estimated := BaseFee(s.feeOverride);
    if estimated.Err? {
      return Err(estimated.error);
    }
    var selection := SelectFor(s, inp, estimated.value);
    if selection.Err? {
      return Err(selection.error);
    }
    ChosenAddsUp(s, inp);
    var total := selection.value.total;
    var baseFee := if s.feeOverride.Some? then s.feeOverride.value else DEFAULT_FEE;
    if outputSum + baseFee > U64_MAX {
      return Err(AmountOverflow);
    }
    if total < outputSum + baseFee {
      return Err(FundsBelowTotal);
    }
    var effective := ApplyDustPolicy(baseFee, total - (outputSum + baseFee));
    if effective.Err? {
      return Err(effective.error);
    }
    return Ok((selection.value.notes, effective.value));
  }

  method SaplingAnchorFor(s: Settings, inp: Inputs, notes: seq<Note>) returns (r: Result<Option<Anchor>, Error>)
    ensures r.Ok? <==> exists a :: Anchored(notes, Sapling, a)
    ensures r.Ok? ==> IsSaplingAnchor(r.value, s, inp, notes)
    ensures r.Err? ==> !IsDeadError(r.error)
  {
    if SpendsFrom(notes, Sapling) {
      r := PoolAnchor(notes, Sapling);
      if r.Ok? && r.value.None? {
        return Err(TransactionBuild(NoSaplingAnchor));
      }
    } else {
      assert Anchored(notes, Sapling, 0);
      r := Ok(if PaysTo(s.outputs, Sapling) then Some(inp.emptyTree) else None);
    }
  }

  method IronwoodAnchorFor(s: Settings, inp: Inputs, notes: seq<Note>) returns (r: Result<Option<Anchor>, Error>)
    ensures r.Ok? <==> IronwoodAnchorAgrees(inp, notes)
    ensures r.Ok? ==> IsIronwoodAnchor(r.value, s, inp, notes)
    ensures r.Err? ==> !IsDeadError(r.error)
  {
    if SpendsFrom(notes, Ironwood) {
      r := PoolAnchor(notes, Ironwood);
      if r.Ok? && r.value.None? {
        return Err(TransactionBuild(NoIronwoodAnchor));
      }
      if r.Ok? && inp.ironwoodAnchor.Some? && inp.ironwoodAnchor != r.value {
        OneAnchor(notes, Ironwood, r.value.value);
        return Err(TransactionBuild(ProvidedAnchorDiffers));
      }
    } else {
      assert Anchored(notes, Ironwood, 0);
      r := Ok(if PaysTo(s.outputs, Ironwood) then inp.ironwoodAnchor else None);
    }
  }

  lemma OneAnchor(notes: seq<Note>, pool: Pool, a: Anchor)
    requires SpendsFrom(notes, pool) && Anchored(notes, pool, a)
    ensures forall b :: Anchored(notes, pool, b) ==> b == a
  {
    var i :| 0 <= i < |notes| && notes[i].pool == pool;
    forall b | Anchored(notes, pool, b) ensures b == a {
      assert AnchorOf(notes[i]) == Some(b);
    }
  }

  /** Adds the change output, if there is change. */
  method AddChange(s: Settings, inp: Inputs, notes: seq<Note>, first: Option<Note>, change: u64)
    returns (r: Result<seq<LedgerOutput>, Error>)
    requires forall n :: n in notes ==> IsSpendable(inp.keys, n)
    requires first == FirstSapling(notes)
    requires change > 0 ==> notes != []
    requires change == 0 || change >= CHANGE_DUST_THRESHOLD
    ensures r.Ok? <==>
            (change > 0 ==> change <= inp.maxMoney && (IronwoodChange(s, notes) ==> inp.keys.ironwood.Some?))
    ensures r.Ok? && change == 0 ==> r.value == []
    ensures r.Ok? && change > 0 ==>
              CanRouteChange(s, inp, notes) && r.value == [ChangeOutput(s, inp, notes, change)]
    ensures r.Err? ==> !IsDeadError(r.error)
  {
    if change < CHANGE_DUST_THRESHOLD {
      return Ok([]);
    }
    if IronwoodChange(s, notes) {
      if inp.keys.ironwood.None? {
        return Err(TransactionBuild(MissingIronwoodChangeKey));
      }
    } else if LegacyChange(s, inp, notes) {
      assert notes[0].pool == Sapling;
      if first.None? {
        return Err(TransactionBuild(LegacyChangeNeedsSaplingSpend));
      }
    }
    if change > inp.maxMoney {
      return Err(InvalidAmount);
    }
    return Ok([ChangeOutput(s, inp, notes, change)]);
  }

  /** Anchors, spends, outputs, change and fee, in that order. */
  method Assemble(s: Settings, inp: Inputs, notes: seq<Note>, e: Effective) returns (r: Result<Built, Error>)
    requires forall o :: o in s.outputs ==> IsAcceptable(o)
    requires notes != []
    requires e.change == 0 || e.change >= CHANGE_DUST_THRESHOLD
    ensures r.Ok? <==> IsAssemblable(s, inp, notes, e)
    ensures r.Ok? ==> IsAssemblyOf(r.value, s, inp, notes, e)
    ensures r.Ok? ==> PaysAll(r.value.tx, inp.keys, s.outputs)
    ensures r.Err? ==> !IsDeadError(r.error)
  {
    var saplingAnchor := SaplingAnchorFor(s, inp, notes);
    if saplingAnchor.Err? {
      return Err(saplingAnchor.error);
    }
    var ironwoodAnchor := IronwoodAnchorFor(s, inp, notes);
    if ironwoodAnchor.Err? {
      return Err(ironwoodAnchor.error);
    }
    var spends, first := AddSpends(inp.keys, notes);
    if spends.Err? {
      return Err(spends.error);
    }
    var outputs := AddOutputs(inp.keys, s.outputs, inp.maxMoney);
    if outputs.Err? {
      return Err(outputs.error);
    }
    var changes := AddChange(s, inp, notes, first, e.change);
    if changes.Err? {
      return Err(changes.error);
    }
    if e.fee > inp.maxMoney {
      return Err(InvalidAmount);
    }
    var tx := Ledger(saplingAnchor.value, ironwoodAnchor.value, spends.value, outputs.value + changes.value);
    return Ok(Built(tx, e.fee, notes));
  }

  // ----- the builder

  class Builder {
    var outputs: seq<Output>
    var feeOverride: Option<u64>
    var extraLimit: nat
    const activation: Option<u32>

    ghost predicate Valid()
      reads this
    {
      forall o :: o in outputs ==> IsAcceptable(o)
    }

    function TheSettings(): Settings
      reads this
    {
      Settings(outputs, feeOverride, activation, extraLimit)
    }

    constructor (activation: Option<u32>)
      ensures Valid()
      ensures TheSettings() == Settings([], None, activation, 0)
    {
      this.activation := activation;
      outputs, feeOverride, extraLimit := [], None, 0;
    }

    method WithFee(fee: u64)
      modifies this`feeOverride
      ensures TheSettings() == old(TheSettings()).(feeOverride := Some(fee))
    {
      feeOverride := Some(fee);
    }

    method WithExtraLimit(limit: nat)
      modifies this`extraLimit
      ensures TheSettings() == old(TheSettings()).(extraLimit := limit)
    {
      extraLimit := limit;
    }

    /** Adds an output, or refuses it and changes nothing. */
    method AddOutput(o: Output) returns (r: Result<(), Error>)
      requires Valid()
      modifies this`outputs
      ensures Valid()
      ensures r.Ok? <==> o.amount != 0 && (o.memo.Some? ==> |Memo.Content(o.memo.value)| <= 512)
      ensures TheSettings() == old(TheSettings()).(outputs := old(outputs) + if r.Ok? then [o] else [])
    {
      if o.amount == 0 {
        return Err(InvalidAmount);
      }
      if o.memo.Some? && Memo.Validate(o.memo.value).Err? {
        return Err(MemoTooLong);
      }
      outputs := outputs + [o];
      return Ok(());
    }

    /**
     Builds exactly when the settings and inputs allow it, and then hands over exactly the
     ledger they call for. The errors for sums that overflow or fall short after selection,
     for a missing anchor of a selected pool, and for legacy change without a Sapling spend
     are never returned.
     */
    method BuildAndSign(inp: Inputs) returns (r: Result<Built, Error>)
      requires Valid()
      requires OutputSum(outputs) <= U64_MAX
      ensures r.Ok? <==> IsBuildable(TheSettings(), inp)
      ensures r.Ok? ==> IsBuildOf(r.value, TheSettings(), inp)
      ensures r.Ok? ==> PaysAll(r.value.tx, inp.keys, outputs)
      ensures r.Err? ==> !IsDeadError(r.error)
    {
      var s := TheSettings();
      var account := Account(s, inp);
      if account.Err? {
        return Err(account.error);
      }
      r := Assemble(s, inp, account.value.0, account.value.1);
    }
  }
}
