/** Machine integers, results and errors shared by every module. */
module Base {
  import Division

  const U64_LIMIT: int := 0x1_0000_0000_0000_0000
  const U128_LIMIT: int := 0x1_0000_0000_0000_0000_0000_0000_0000_0000

  type byte = x: int | 0 <= x < 0x100
  type u16 = x: int | 0 <= x < 0x1_0000
  type u32 = x: int | 0 <= x < 0x1_0000_0000
  type u64 = x: int | 0 <= x < U64_LIMIT
  type u128 = x: int | 0 <= x < U128_LIMIT
  type i64 = x: int | -0x8000_0000_0000_0000 <= x < 0x8000_0000_0000_0000

  type Bytes = seq<byte>

  /** A 32-byte array: a Solana key, an EVM word or a hash. */
  type Word = w: Bytes | |w| == 32 witness seq(32, _ => 0)

  type Pubkey = Word

  function ZeroWord(): Word {
    seq(32, _ => 0)
  }

  datatype Option<+T> = None | Some(value: T)

  /** Why an instruction fails. `Abort` covers what the source does not name itself: a panicking
      conversion, an arithmetic overflow (the programs are built with overflow checks), a missing
      account, or a rejection by the token or system program. `Revert` is a Solidity revert. */
  datatype Error =
    | Abort
    | Unauthorized
    | InvalidSender
    | InvalidDecimals
    | InvalidArgument
    | SlippageExceeded
    | InvalidTokenDest
    | RateLimitExceeded
    | InvalidFee
    | InvalidMintAuthority
    | Paused
    | InvalidPayloadType
    | InvalidReceiver
    | InvalidLedgerPayloadType
    | InvalidLedgerTokenType
    | InsufficientMessagingFee
    | InsufficientBalance
    | Revert

  datatype Result<+T> = Ok(value: T) | Err(error: Error) {
    predicate IsFailure() {
      Err?
    }

    function PropagateFailure<U>(): Result<U>
      requires Err?
    {
      Err(error)
    }

    function Extract(): T
      requires Ok?
    {
      value
    }
  }

  function Min(a: int, b: int): int {
    if a < b then a else b
  }

  function Max(a: int, b: int): int {
    if a < b then b else a
  }

  /** Checked u64 addition: an overflow aborts the instruction. */
  function Add64(a: u64, b: u64): Result<u64> {
    if a + b < U64_LIMIT then Ok(a + b) else Err(Abort)
  }

  /** Checked u64 subtraction: an underflow aborts the instruction. */
  function Sub64(a: u64, b: u64): Result<u64> {
    if b <= a then Ok(a - b) else Err(Abort)
  }

  /** Rust's `as u64`. */
  function Truncate64(v: nat): u64 {
    v % U64_LIMIT
  }

  function SaturatingAdd(a: u64, b: u64): u64 {
    Min(a + b, U64_LIMIT - 1)
  }

  function SaturatingMul(a: u64, b: u64): (r: u64)
  {
    Division.MonotoneProduct(0, a, b);
    Min(a * b, U64_LIMIT - 1)
  }
}
