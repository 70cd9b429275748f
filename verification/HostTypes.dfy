/** What the Soroban host gives every contract: bounded integers with their saturating and
    checked operations, addresses, dynamically typed values, call contexts, and the replies
    of cross-contract calls. */
module HostTypes {

  datatype Option<+T> = None | Some(value: T)

  datatype Result<+T, +E> = Success(value: T) | Failure(error: E)

  // ---------- Integers ----------

  const U32_MAX: int := 0xFFFF_FFFF
  const U64_MAX: int := 0xFFFF_FFFF_FFFF_FFFF
  const U128_MAX: int := 0xFFFF_FFFF_FFFF_FFFF_FFFF_FFFF_FFFF_FFFF
  const I128_MAX: int := 0x7FFF_FFFF_FFFF_FFFF_FFFF_FFFF_FFFF_FFFF
  const I128_MIN: int := -0x8000_0000_0000_0000_0000_0000_0000_0000

  type u8 = x: int | 0 <= x < 256
  type u32 = x: int | 0 <= x <= U32_MAX
  type u64 = x: int | 0 <= x <= U64_MAX
  type i32 = x: int | -0x8000_0000 <= x < 0x8000_0000
  type i64 = x: int | -0x8000_0000_0000_0000 <= x < 0x8000_0000_0000_0000
  type u128 = x: int | 0 <= x <= U128_MAX
  type i128 = x: int | I128_MIN <= x <= I128_MAX

  function Clamp(x: int): i128 {
    if x > I128_MAX then I128_MAX else if x < I128_MIN then I128_MIN else x
  }

  function SaturatingAdd(a: i128, b: i128): i128 { Clamp(a + b) }

  function SaturatingSub(a: i128, b: i128): i128 { Clamp(a - b) }

  /** Unsigned `saturating_sub`: floors at zero. */
  function Monus(a: nat, b: nat): nat { if a < b then 0 else a - b }

  function CheckedAdd(a: i128, b: i128): Option<i128> {
    if I128_MIN <= a + b <= I128_MAX then Some(a + b) else None
  }

  function CheckedMul(a: i128, b: i128): Option<i128> {
    if I128_MIN <= a * b <= I128_MAX then Some(a * b) else None
  }

  /** Division that truncates toward zero, as Rust's `/` does; Dafny's rounds down here. */
  function TruncDiv(a: int, b: int): int
    requires b != 0
  {
    if a >= 0 then a / b else -((-a) / b)
  }

  function CheckedDiv(a: i128, b: i128): Option<i128> {
    if b == 0 || !(I128_MIN <= TruncDiv(a, b) <= I128_MAX) then None else Some(TruncDiv(a, b))
  }

  // ---------- Byte strings and vectors ----------

  /** A host vector: its length is a u32. */
  type Vec<T> = s: seq<T> | |s| <= U32_MAX witness []

  type Bytes = Vec<u8>

  const ZERO32: seq<u8> := seq(32, _ => 0)

  type Bytes32 = s: seq<u8> | |s| == 32 witness ZERO32

  // ---------- Addresses, values, calls ----------

  /** There are finitely many addresses: a one-byte kind and a 32-byte key bound their number by 2^264. */
  const ADDRESS_COUNT: nat := 0x1_00_0000_0000_0000_0000_0000_0000_0000_0000_0000_0000_0000_0000_0000_0000_0000_0000

  type AddressRank = n: nat | n < ADDRESS_COUNT

  /** An address, known by its position in the host's total order of addresses. */
  datatype Address = Address(rank: AddressRank)

  type Symbol = string

  /** A dynamically typed call argument; `Opaque` is every type not listed. */
  datatype Val =
    | U32(u32: u32) | I32(i32: i32) | U64(u64: u64) | I64(i64: i64)
    | U128(u128: u128) | I128(i128: i128)
    | Sym(sym: Symbol) | Addr(addr: Address)
    | Opaque

  datatype Context =
    | Contract(contract: Address, fnName: Symbol, args: seq<Val>)
    | CreateContract

  datatype ContextRuleType = CallContract(target: Address) | OtherRule

  datatype ContextRule = ContextRule(id: u32, contextType: ContextRuleType)

  /** Storage key of a policy: one installation per smart account and context rule. */
  datatype AccountContext = AccountContext(account: Address, ruleId: u32)

  /** The ledger a call runs in. */
  datatype Env = Env(sequence: u32, timestamp: u64)

  /** What a cross-contract call came back with. */
  datatype Reply<+T> = Reverted | Returned(value: T)
}
