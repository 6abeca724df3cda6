/** Domain types of the ledger (include/ledger/types.hpp, include/ledger/result.hpp). */
module Types {
  const I64_MAX: int := 0x7FFF_FFFF_FFFF_FFFF
  const I64_MIN: int := -0x8000_0000_0000_0000
  const U64_LIMIT: int := 0x1_0000_0000_0000_0000

  type byte = x: int | 0 <= x < 0x100
  type u64 = x: int | 0 <= x < U64_LIMIT
  type i64 = x: int | I64_MIN <= x <= I64_MAX

  predicate InI64(x: int) {
    I64_MIN <= x <= I64_MAX
  }

  ghost predicate Distinct<T>(s: seq<T>) {
    forall i, j :: 0 <= i < j < |s| ==> s[i] != s[j]
  }

  datatype Option<+T> = None | Some(value: T)

  datatype LedgerError =
    | UnbalancedTransaction
    | TooFewLegs
    | ZeroAmountLeg
    | AmountOverflow
    | AccountNotFound
    | InsufficientFunds
    | DuplicateTransaction
    | WalOpenFailed
    | WalWriteFailed
    | WalSyncFailed
    | WalCorruptRecord
    | SnapshotOpenFailed
    | SnapshotWriteFailed
    | SnapshotReadFailed
    | SnapshotCorrupt
    | TrialBalanceMismatch

  /** `Result<T>`; a `Result<void>` is a `Result<()>`. */
  datatype Result<+T> = Ok(value: T) | Err(error: LedgerError)

  datatype IdempotencyKey = IdempotencyKey(high: u64, low: u64)

  /** The enum has an 8-bit representation and a loaded snapshot stores whatever code it finds,
      so every byte is a possible account type. */
  type AccountType = byte
  const ASSET: AccountType := 0
  const EXPENSE: AccountType := 4

  predicate IsDebitNormal(t: AccountType) {
    t == ASSET || t == EXPENSE
  }

  datatype Direction = Debit | Credit

  function SignedDelta(t: AccountType, dir: Direction, amount: int): int {
    if (dir == Debit) == IsDebitNormal(t) then amount else -amount
  }

  datatype EntryLeg = EntryLeg(accountId: u64, direction: Direction, amount: i64)

  const MAX_LEGS: nat := 16

  /** The fixed-capacity leg list never holds more than MAX_LEGS legs. */
  type LegList = legs: seq<EntryLeg> | |legs| <= MAX_LEGS

  datatype Transaction = Transaction(id: u64, key: IdempotencyKey, createdAtNs: i64, legs: LegList)

  /** Balances are mathematical integers; module Headroom states when they stay 64-bit. */
  datatype Account = Account(id: u64, accountType: AccountType, balance: int, overdraftLimit: i64)
}
