/** Shared value types: machine integers as subset types, optional values, and the wallet's errors. */
module Base {

  const U32_LIMIT: nat := 0x1_0000_0000
  const U64_MAX: nat := 0xFFFF_FFFF_FFFF_FFFF

  type byte = b: int | 0 <= b < 256
  type u32 = n: int | 0 <= n < 0x1_0000_0000
  type u64 = n: int | 0 <= n <= 0xFFFF_FFFF_FFFF_FFFF

  datatype Option<+T> = None | Some(value: T)

  datatype Result<+T, +E> = Ok(value: T) | Err(error: E)

  lemma ConcatAssociates<T>(a: seq<T>, b: seq<T>, c: seq<T>)
    ensures a + (b + c) == (a + b) + c
  {
  }

  /** Why a selection could not be made; the wallet reports all three as insufficient funds. */
  datatype Shortage =
    | RequiredOverflow
    | ValueOverflow
    | Short(required: nat, available: nat)

  /** The distinguishable ways in which assembling a transaction is refused. */
  datatype BuildFault =
    | MissingSaplingNote
    | MissingSaplingPath
    | MissingDiversifier
    | SaplingAnchorsDiffer
    | NoSaplingAnchor
    | MissingIronwoodNote
    | MissingIronwoodPath
    | MissingIronwoodAnchor
    | IronwoodAnchorsDiffer
    | NoIronwoodAnchor
    | ProvidedAnchorDiffers
    | MissingIronwoodKey
    | MissingIronwoodChangeKey
    | LegacyChangeNeedsSaplingSpend
    | EmptyScript
    | MissingScript
    | IronwoodInactive
    | IronwoodBuilderMissing
    | WouldBurnRemainder

  datatype Error =
    | InsufficientFunds(reason: Shortage)
    | FundsBelowTotal
    | FeeTooLow
    | FeeTooHigh
    | AmountOverflow
    | InvalidAmount
    | InvalidMemo
    | MemoTooLong
    | InvalidKey
    | InvalidSeed
    | TransactionBuild(fault: BuildFault)
}
