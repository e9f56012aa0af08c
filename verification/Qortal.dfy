/** Funding and redeeming of script-locked trades: recipients, outputs and value accounting. */
module Qortal {
  import opened Base
  import opened Selection
  import opened SelectionTheorems
  import opened Fees
  import opened ShieldedBuilder
  import opened ShieldedTheorems
  import Memo

  datatype Recipient =
    | ToShielded(pool: Pool, address: Address, amount: u64, memo: Option<Memo.Memo>)
    | ToTransparent(address: Address, amount: u64)

  /** A transparent output: to an address, or carrying the trade's script. */
  datatype TxOut = Pay(value: u64, address: Address) | Carrier(value: u64, script: seq<byte>)

  datatype Outputs = Outputs(shielded: seq<LedgerOutput>, vout: seq<TxOut>)

  // ----- recipient totals

  function AmountSum(recipients: seq<Recipient>): nat {
    if recipients == [] then 0 else recipients[0].amount + AmountSum(recipients[1..])
  }

  /** A fold that stops as soon as the running total leaves 64 bits. */
  function TotalFrom(total: u64, recipients: seq<Recipient>): Result<u64, Error>
    decreases recipients
  {
    if recipients == [] then Ok(total)
    else if total + recipients[0].amount > U64_MAX then Err(AmountOverflow)
    else TotalFrom(total + recipients[0].amount, recipients[1..])
  }

  function RecipientTotal(recipients: seq<Recipient>): Result<u64, Error> {
    TotalFrom(0, recipients)
  }

  lemma {:induction false} TotalIsSum(total: u64, recipients: seq<Recipient>)
    ensures TotalFrom(total, recipients) ==
            if total + AmountSum(recipients) <= U64_MAX then Ok(total + AmountSum(recipients)) else Err(AmountOverflow)
    decreases recipients
  {
    if recipients != [] && total + recipients[0].amount <= U64_MAX {
      TotalIsSum(total + recipients[0].amount, recipients[1..]);
    }
  }

  // ----- outputs

  /** How outputs are laid out, and what is available to lay them out with. */
  datatype Layout = Layout(
    script: Option<seq<byte>>,
    scriptEach: bool,
    hasIronwood: bool,
    saplingViewer: Key,
    ironwoodViewer: Option<Key>,
    maxMoney: u64)

  predicate IsPayable(l: Layout, r: Recipient) {
    match r
    case ToShielded(pool, _, _, memo) =>
      (memo.Some? ==> Memo.ToMemoBytes(memo.value).Ok?) && (pool == Ironwood ==> l.hasIronwood)
    case ToTransparent(_, amount) => amount <= l.maxMoney
  }

  function MemoOf(memo: Option<Memo.Memo>): Memo.MemoBytes
    requires memo.Some? ==> Memo.ToMemoBytes(memo.value).Ok?
  {
    if memo.Some? then Memo.ToMemoBytes(memo.value).value else Memo.NoMemo
  }

  /** The shielded output a recipient leads to, if any. */
  function ShieldedPart(l: Layout, r: Recipient): seq<LedgerOutput>
    requires IsPayable(l, r)
  {
    match r
    case ToShielded(pool, address, amount, memo) =>
      [LedgerOutput(pool, amount, address,
                    if pool == Sapling then Some(l.saplingViewer) else l.ironwoodViewer, MemoOf(memo))]
    case ToTransparent(_, _) => []
  }

  function PayPart(r: Recipient): seq<TxOut> {
    match r
    case ToShielded(_, _, _, _) => []
    case ToTransparent(address, amount) => [Pay(amount, address)]
  }

  /** The transparent outputs of a recipient, with its own script carrier where asked for. */
  function TransparentPart(l: Layout, r: Recipient): seq<TxOut>
    requires l.scriptEach ==> l.script.Some?
  {
    PayPart(r) + if l.scriptEach then [Carrier(0, l.script.value)] else []
  }

  predicate ArePayable(l: Layout, recipients: seq<Recipient>) {
    && (forall r :: r in recipients ==> IsPayable(l, r))
    && (l.scriptEach && recipients != [] ==> l.script.Some?)
  }

  /** The errors of laying out outputs, and when the two internal ones can occur. */
  predicate IsLayoutError(l: Layout, recipients: seq<Recipient>, e: Error) {
    || e == InvalidMemo
    || e == InvalidAmount
    || (e == TransactionBuild(MissingScript) && l.script.None?)
    || (e == TransactionBuild(IronwoodBuilderMissing) && !l.hasIronwood
        && exists r :: r in recipients && r.ToShielded? && r.pool == Ironwood)
  }

  /** The outputs that a single recipient adds. */
  method PayRecipient(l: Layout, to: Recipient) returns (r: Result<Outputs, Error>)
    ensures r.Ok? <==>
            && (to.ToShielded? && to.memo.Some? ==> to.memo.value.Empty? || |Memo.Content(to.memo.value)| <= 512)
            && (to.ToShielded? && to.pool == Ironwood ==> l.hasIronwood)
            && (to.ToTransparent? ==> to.amount <= l.maxMoney)
            && (l.scriptEach ==> l.script.Some?)
    ensures r.Ok? ==> IsPayable(l, to) && r.value == Outputs(ShieldedPart(l, to), TransparentPart(l, to))
    ensures r.Ok? && to.ToTransparent? ==>
              && r.value.shielded == []
              && r.value.vout == [Pay(to.amount, to.address)] + if l.scriptEach then [Carrier(0, l.script.value)] else []
    ensures r.Ok? && to.ToShielded? ==>
              && |r.value.shielded| == 1
              && IsShieldedFor(r.value.shielded[0], to, Some(l.saplingViewer), l.ironwoodViewer)
              && r.value.vout == if l.scriptEach then [Carrier(0, l.script.value)] else []
    ensures r.Err? ==> IsLayoutError(l, [to], r.error)
  {
    var shielded: seq<LedgerOutput> := [];
    var vout: seq<TxOut> := [];
    match to {
      case ToShielded(pool, address, amount, memo) =>
        if pool == Ironwood && !l.hasIronwood {
          assert to in [to];
          return Err(TransactionBuild(IronwoodBuilderMissing));
        }
        if memo.Some? && Memo.ToMemoBytes(memo.value).Err? {
          return Err(InvalidMemo);
        }
        var viewer := if pool == Sapling then Some(l.saplingViewer) else l.ironwoodViewer;
        Memo.FieldCarries(memo);
        shielded := [LedgerOutput(pool, amount, address, viewer, MemoOf(memo))];
      case ToTransparent(address, amount) =>
        if amount > l.maxMoney {
          return Err(InvalidAmount);
        }
        vout := [Pay(amount, address)];
    }
    if l.scriptEach {
      if l.script.None? {
        return Err(TransactionBuild(MissingScript));
      }
      vout := vout + [Carrier(0, l.script.value)];
    }
    return Ok(Outputs(shielded, vout));
  }

  method AddOutputsAndScript(l: Layout, recipients: seq<Recipient>) returns (r: Result<Outputs, Error>)
    ensures r.Ok? <==> ArePayable(l, recipients)
    ensures r.Ok? ==> r.value == Laid(l, recipients)
    ensures r.Ok? ==> PaysInOrder(Payments(r.value.vout), recipients)
    ensures r.Ok? ==> ShieldsInOrder(r.value.shielded, recipients, Some(l.saplingViewer), l.ironwoodViewer)
    ensures r.Err? ==> IsLayoutError(l, recipients, r.error)
  {
    var shielded: seq<LedgerOutput> := [];
    var vout: seq<TxOut> := [];
    var i := 0;
    while i < |recipients|
      invariant 0 <= i <= |recipients|
      invariant ArePayable(l, recipients[..i])
      invariant shielded == AllShielded(l, recipients[..i])
      invariant vout == AllTransparent(l, recipients[..i])
    {
      var part := PayRecipient(l, recipients[i]);
      if part.Err? {
        assert recipients[i] in recipients;
        return Err(part.error);
      }
      LaidStep(l, recipients, i);
      shielded := shielded + part.value.shielded;
      vout := vout + part.value.vout;
      i := i + 1;
    }
    assert recipients[..|recipients|] == recipients;
    if !l.scriptEach && l.script.Some? {
      vout := vout + [Carrier(0, l.script.value)];
    }
    LaidWorth(l, recipients);
    ShieldedAreInOrder(l, recipients);
    return Ok(Outputs(shielded, vout));
  }

  function AllShielded(l: Layout, recipients: seq<Recipient>): seq<LedgerOutput>
    requires ArePayable(l, recipients)
  {
    if recipients == [] then []
    else
      var last := recipients[|recipients| - 1];
      AllShielded(l, recipients[..|recipients| - 1]) + ShieldedPart(l, last)
  }

  function AllTransparent(l: Layout, recipients: seq<Recipient>): seq<TxOut>
    requires ArePayable(l, recipients)
  {
    if recipients == [] then []
    else AllTransparent(l, recipients[..|recipients| - 1]) + TransparentPart(l, recipients[|recipients| - 1])
  }

  function Closing(l: Layout): seq<TxOut> {
    if !l.scriptEach && l.script.Some? then [Carrier(0, l.script.value)] else []
  }

  /** All outputs, with the single closing script carrier where asked for. */
  function Laid(l: Layout, recipients: seq<Recipient>): Outputs
    requires ArePayable(l, recipients)
  {
    Outputs(AllShielded(l, recipients), AllTransparent(l, recipients) + Closing(l))
  }

  lemma LaidSnoc(l: Layout, recipients: seq<Recipient>, to: Recipient)
    requires ArePayable(l, recipients) && IsPayable(l, to) && (l.scriptEach ==> l.script.Some?)
    ensures ArePayable(l, recipients + [to])
    ensures AllShielded(l, recipients + [to]) == AllShielded(l, recipients) + ShieldedPart(l, to)
    ensures AllTransparent(l, recipients + [to]) == AllTransparent(l, recipients) + TransparentPart(l, to)
  {
    assert (recipients + [to])[..|recipients|] == recipients;
  }

  lemma LaidStep(l: Layout, recipients: seq<Recipient>, i: nat)
    requires i < |recipients| && ArePayable(l, recipients[..i])
    requires IsPayable(l, recipients[i]) && (l.scriptEach ==> l.script.Some?)
    ensures ArePayable(l, recipients[..i + 1])
    ensures AllShielded(l, recipients[..i + 1]) == AllShielded(l, recipients[..i]) + ShieldedPart(l, recipients[i])
    ensures AllTransparent(l, recipients[..i + 1]) ==
            AllTransparent(l, recipients[..i]) + TransparentPart(l, recipients[i])
  {
    LaidSnoc(l, recipients[..i], recipients[i]);
    assert recipients[..i + 1] == recipients[..i] + [recipients[i]];
  }

  // ----- what the laid-out outputs are worth and how they are arranged

  function VoutTotal(vout: seq<TxOut>): nat {
    if vout == [] then 0 else vout[0].value + VoutTotal(vout[1..])
  }

  lemma {:induction false} VoutConcat(a: seq<TxOut>, b: seq<TxOut>)
    ensures VoutTotal(a + b) == VoutTotal(a) + VoutTotal(b)
    ensures Carriers(a + b) == Carriers(a) + Carriers(b)
  {
    if a == [] {
      assert a + b == b;
    } else {
      VoutConcat(a[1..], b);
      assert (a + b)[1..] == a[1..] + b;
    }
  }

  lemma {:induction false} PaymentsConcat(a: seq<TxOut>, b: seq<TxOut>)
    ensures Payments(a + b) == Payments(a) + Payments(b)
  {
    if a == [] {
      assert a + b == b;
    } else {
      PaymentsConcat(a[1..], b);
      assert (a + b)[1..] == a[1..] + b;
      ConcatAssociates([a[0]], Payments(a[1..]), Payments(b));
    }
  }

  /** How many script carriers there are. */
  function Carriers(vout: seq<TxOut>): nat {
    if vout == [] then 0 else (if vout[0].Carrier? then 1 else 0) + Carriers(vout[1..])
  }

  /** What is left when the script carriers are removed. */
  function Payments(vout: seq<TxOut>): seq<TxOut> {
    if vout == [] then []
    else if vout[0].Carrier? then Payments(vout[1..])
    else [vout[0]] + Payments(vout[1..])
  }

  function Transparents(recipients: seq<Recipient>): nat {
    if recipients == [] then 0
    else Transparents(recipients[..|recipients| - 1]) + if recipients[|recipients| - 1].ToTransparent? then 1 else 0
  }

  function Shieldeds(recipients: seq<Recipient>): nat {
    if recipients == [] then 0
    else Shieldeds(recipients[..|recipients| - 1]) + if recipients[|recipients| - 1].ToShielded? then 1 else 0
  }

  /** The outputs are those of the transparent recipients, in order, and no others. */
  ghost predicate PaysInOrder(payments: seq<TxOut>, recipients: seq<Recipient>) {
    && |payments| == Transparents(recipients)
    && forall i :: 0 <= i < |recipients| && recipients[i].ToTransparent? ==>
         var k := Transparents(recipients[..i]);
         k < |payments| && payments[k] == Pay(recipients[i].amount, recipients[i].address)
  }

  /** The output pays the recipient's amount to its address, in its pool and with its memo. */
  ghost predicate IsShieldedFor(x: LedgerOutput, r: Recipient, sapling: Option<Key>, ironwood: Option<Key>)
    requires r.ToShielded?
  {
    && x.pool == r.pool
    && x.value == r.amount
    && x.address == r.address
    && x.viewer == (if r.pool == Sapling then sapling else ironwood)
    && Memo.Carries(x.memo, r.memo)
  }

  /** The outputs are those of the shielded recipients, in order, and no others. */
  ghost predicate ShieldsInOrder(
      shielded: seq<LedgerOutput>, recipients: seq<Recipient>, sapling: Option<Key>, ironwood: Option<Key>)
  {
    && |shielded| == Shieldeds(recipients)
    && forall i :: 0 <= i < |recipients| && recipients[i].ToShielded? ==>
         var k := Shieldeds(recipients[..i]);
         k < |shielded| && IsShieldedFor(shielded[k], recipients[i], sapling, ironwood)
  }

  /** One more recipient adds its payment at the end. */
  lemma PaysOneMore(payments: seq<TxOut>, front: seq<Recipient>, to: Recipient, more: seq<TxOut>)
    requires PaysInOrder(payments, front)
    requires more == if to.ToTransparent? then [Pay(to.amount, to.address)] else []
    ensures PaysInOrder(payments + more, front + [to])
  {
    var recipients := front + [to];
    assert recipients[..|front|] == front;
    forall i | 0 <= i < |recipients| && recipients[i].ToTransparent?
      ensures var k := Transparents(recipients[..i]);
              k < |payments + more| && (payments + more)[k] == Pay(recipients[i].amount, recipients[i].address)
    {
      assert i < |front| ==> recipients[..i] == front[..i];
    }
  }

  lemma ShieldsOneMore(
      shielded: seq<LedgerOutput>, front: seq<Recipient>, to: Recipient, more: seq<LedgerOutput>,
      sapling: Option<Key>, ironwood: Option<Key>)
    requires ShieldsInOrder(shielded, front, sapling, ironwood)
    requires to.ToShielded? ==> |more| == 1 && IsShieldedFor(more[0], to, sapling, ironwood)
    requires to.ToTransparent? ==> more == []
    ensures ShieldsInOrder(shielded + more, front + [to], sapling, ironwood)
  {
    var recipients := front + [to];
    assert recipients[..|front|] == front;
    forall i | 0 <= i < |recipients| && recipients[i].ToShielded?
      ensures var k := Shieldeds(recipients[..i]);
              k < |shielded + more| && IsShieldedFor((shielded + more)[k], recipients[i], sapling, ironwood)
    {
      assert i < |front| ==> recipients[..i] == front[..i];
    }
  }

  lemma {:induction false} AmountSumSnoc(recipients: seq<Recipient>, to: Recipient)
    ensures AmountSum(recipients + [to]) == AmountSum(recipients) + to.amount
  {
    if recipients == [] {
      assert recipients + [to] == [to];
    } else {
      AmountSumSnoc(recipients[1..], to);
      assert (recipients + [to])[1..] == recipients[1..] + [to];
    }
  }

  /** What one recipient adds to the transparent side. */
  lemma TransparentPartWorth(l: Layout, to: Recipient)
    requires l.scriptEach ==> l.script.Some?
    ensures VoutTotal(TransparentPart(l, to)) == if to.ToTransparent? then to.amount else 0
    ensures Carriers(TransparentPart(l, to)) == if l.scriptEach then 1 else 0
    ensures Payments(TransparentPart(l, to)) == if to.ToTransparent? then [Pay(to.amount, to.address)] else []
  {
    var own := if l.scriptEach then [Carrier(0, l.script.value)] else [];
    VoutConcat(PayPart(to), own);
    PaymentsConcat(PayPart(to), own);
  }

  /** Every recipient is paid in full; carriers are worthless and counted exactly. */
  lemma {:induction false} RecipientsWorth(l: Layout, recipients: seq<Recipient>)
    requires ArePayable(l, recipients)
    ensures PayTotal(AllShielded(l, recipients)) + VoutTotal(AllTransparent(l, recipients)) == AmountSum(recipients)
    ensures Carriers(AllTransparent(l, recipients)) == if l.scriptEach then |recipients| else 0
  {
    if recipients != [] {
      var front, to := recipients[..|recipients| - 1], recipients[|recipients| - 1];
      assert recipients == front + [to];
      assert to in recipients;
      RecipientsWorth(l, front);
      AmountSumSnoc(front, to);
      PayTotalConcat(AllShielded(l, front), ShieldedPart(l, to));
      VoutConcat(AllTransparent(l, front), TransparentPart(l, to));
      TransparentPartWorth(l, to);
    }
  }

  /** Without the carriers the transparent recipients are paid in order. */
  lemma {:induction false} TransparentAreInOrder(l: Layout, recipients: seq<Recipient>)
    requires ArePayable(l, recipients)
    ensures PaysInOrder(Payments(AllTransparent(l, recipients)), recipients)
  {
    if recipients != [] {
      var front, to := recipients[..|recipients| - 1], recipients[|recipients| - 1];
      assert recipients == front + [to];
      TransparentAreInOrder(l, front);
      PaymentsConcat(AllTransparent(l, front), TransparentPart(l, to));
      TransparentPartWorth(l, to);
      PaysOneMore(Payments(AllTransparent(l, front)), front, to, Payments(TransparentPart(l, to)));
    }
  }

  lemma ClosingWorth(l: Layout)
    ensures VoutTotal(Closing(l)) == 0 && Payments(Closing(l)) == []
    ensures Carriers(Closing(l)) == if !l.scriptEach && l.script.Some? then 1 else 0
  {
  }

  lemma LaidWorth(l: Layout, recipients: seq<Recipient>)
    requires ArePayable(l, recipients)
    ensures var o := Laid(l, recipients);
            && PayTotal(o.shielded) + VoutTotal(o.vout) == AmountSum(recipients)
            && Carriers(o.vout) == (if l.scriptEach then |recipients| else if l.script.Some? then 1 else 0)
            && PaysInOrder(Payments(o.vout), recipients)
  {
    RecipientsWorth(l, recipients);
    TransparentAreInOrder(l, recipients);
    VoutConcat(AllTransparent(l, recipients), Closing(l));
    PaymentsConcat(AllTransparent(l, recipients), Closing(l));
    ClosingWorth(l);
    var payments := Payments(AllTransparent(l, recipients));
    assert Payments(Laid(l, recipients).vout) == payments + [] == payments;
  }

  /** Script carriers carry the script and no value. */
  lemma {:induction false} CarriersAreEmpty(l: Layout, recipients: seq<Recipient>)
    requires ArePayable(l, recipients)
    ensures forall o :: o in Laid(l, recipients).vout && o.Carrier? ==> l.script.Some? && o == Carrier(0, l.script.value)
  {
    if recipients != [] {
      CarriersAreEmpty(l, recipients[..|recipients| - 1]);
      assert AllTransparent(l, recipients[..|recipients| - 1]) <= Laid(l, recipients[..|recipients| - 1]).vout;
    }
  }

  /** Shielded recipients are paid in order, at their own addresses and with their own memos. */
  lemma {:induction false} ShieldedAreInOrder(l: Layout, recipients: seq<Recipient>)
    requires ArePayable(l, recipients)
    ensures ShieldsInOrder(Laid(l, recipients).shielded, recipients, Some(l.saplingViewer), l.ironwoodViewer)
  {
    if recipients != [] {
      var front, to := recipients[..|recipients| - 1], recipients[|recipients| - 1];
      assert recipients == front + [to];
      assert to in recipients;
      ShieldedAreInOrder(l, front);
      if to.ToShielded? {
        Memo.FieldCarries(to.memo);
      }
      ShieldsOneMore(
        AllShielded(l, front), front, to, ShieldedPart(l, to), Some(l.saplingViewer), l.ironwoodViewer);
    }
  }

  /** A single carrier closes the transparent outputs; otherwise each follows its recipient's payment. */
  lemma {:induction false} CarriersComeLast(l: Layout, recipients: seq<Recipient>, k: nat)
    requires ArePayable(l, recipients) && k < |recipients|
    ensures var vout := Laid(l, recipients).vout;
            && (!l.scriptEach && l.script.Some? ==> vout != [] && vout[|vout| - 1] == Carrier(0, l.script.value))
            && (l.scriptEach ==>
                  && l.script.Some?
                  && ArePayable(l, recipients[..k + 1])
                  && var upTo := Laid(l, recipients[..k + 1]).vout;
                     upTo <= vout && upTo != [] && upTo[|upTo| - 1] == Carrier(0, l.script.value))
  {
    if l.scriptEach {
      if k + 1 < |recipients| {
        CarriersComeLast(l, recipients[..|recipients| - 1], k);
        assert recipients[..|recipients| - 1][..k + 1] == recipients[..k + 1];
      } else {
        assert recipients[..k + 1] == recipients;
      }
    }
  }
}
