/** The amount vested at a ledger, computed in 128-bit words. */
module VestingMath {
  import opened Arithmetic
  import opened HostTypes

  const WORD: int := 0x1_0000_0000_0000_0000

  /** `x << 64`: what is shifted past bit 127 is lost. */
  function ShiftLeft64(x: u128): u128 { (x * WORD) % (U128_MAX + 1) }

  function ShiftRight64(x: u128): u128 { x / WORD }

  function LowWord(x: u128): u64 { x % WORD }

  function CheckedMulU128(a: u128, b: u128): Option<u128> {
    if 0 <= a * b <= U128_MAX then Some(a * b) else None
  }

  /** `x as u128`, two's complement. */
  function AsU128(x: i128): u128 { if x < 0 then x + U128_MAX + 1 else x }

  /** `x as i128`, two's complement. */
  function AsI128(x: u128): i128 { if x > I128_MAX then x - U128_MAX - 1 else x }

  lemma {:induction false} ProductsFit(hi: nat, lo: nat, elapsed: nat, duration: nat)
    requires hi < WORD && lo < WORD && elapsed < duration <= WORD / 2
    ensures 0 <= hi * elapsed <= hi * duration && 0 <= lo * elapsed
    ensures hi * elapsed <= (WORD / 2) * WORD
    ensures hi * duration < WORD * duration
    ensures lo * elapsed + duration * WORD <= U128_MAX
  {
    MulMonotone(0, hi, elapsed);
    MulMonotone(0, lo, elapsed);
    MulMonotone(elapsed, duration, hi);
    MulMonotone(elapsed, WORD / 2, hi);
    MulMonotone(hi, WORD, WORD / 2);
    MulMonotone(hi + 1, WORD, duration);
    Distribute(hi, 1, duration);
    MulMonotone(lo, WORD - 1, elapsed);
    MulMonotone(elapsed, WORD / 2 - 1, WORD - 1);
    MulMonotone(duration, WORD / 2, WORD);
  }

  /** A shift loses no bit when the product fits. */
  lemma {:induction false} ShiftKeeps(x: u128)
    requires x * WORD <= U128_MAX
    ensures ShiftLeft64(x) == x * WORD
  {
  }

  /** Nothing in the wide branch overflows or loses a bit while `duration` stays within 63 bits. */
  lemma {:induction false} WideBranchFits(hi: nat, lo: nat, elapsed: u64, duration: u64)
    requires hi < WORD && lo < WORD && elapsed < duration <= WORD / 2
    ensures 0 <= hi * elapsed <= U128_MAX && 0 <= lo * elapsed <= U128_MAX
    ensures var (hiDiv, hiRem) := (hi * elapsed / duration, hi * elapsed % duration);
            && 0 <= hiDiv < WORD && 0 <= hiRem < WORD
            && hiDiv * WORD <= U128_MAX && hiRem * WORD <= U128_MAX
            && 0 <= hiRem * WORD + lo * elapsed <= U128_MAX
  {
    ProductsFit(hi, lo, elapsed, duration);
    DivisionLaw(hi * elapsed, duration);
    MulMonotone(hi * elapsed % duration, duration, WORD);
    QuotientBounds(hi * elapsed, duration);
    if hi * elapsed / duration >= WORD { MulMonotone(WORD, hi * elapsed / duration, duration); }
  }

  /** A proper fraction of a number is at most that number. */
  lemma {:induction false} FractionFits(total: nat, elapsed: nat, duration: nat)
    requires elapsed <= duration && duration > 0
    ensures 0 <= total * elapsed && 0 <= (total * elapsed) / duration <= total
  {
    MulMonotone(0, total, elapsed);
    MulMonotone(elapsed, duration, total);
    QuotientMonotone(total * elapsed, total * duration, duration);
    QuotientIs(total * duration, duration, total, 0);
  }

  /** Schoolbook division on two words is division of the whole product. */
  lemma {:induction false} WideBranchExact(hi: nat, lo: nat, elapsed: nat, duration: nat)
    requires duration > 0
    ensures var (hiDiv, hiRem) := (hi * elapsed / duration, hi * elapsed % duration);
            hiDiv * WORD + (hiRem * WORD + lo * elapsed) / duration == ((hi * WORD + lo) * elapsed) / duration
  {
    MulMonotone(0, hi, elapsed);
    MulMonotone(0, lo, elapsed);
    var (hiDiv, hiRem) := (hi * elapsed / duration, hi * elapsed % duration);
    var loSum := hiRem * WORD + lo * elapsed;
    DivisionLaw(hi * elapsed, duration);
    DivisionLaw(loSum, duration);
    Distribute(hi * WORD, lo, elapsed);
    Regroup(hi, WORD, elapsed);
    assert hi * (elapsed * WORD) == (hi * elapsed) * WORD;
    Distribute(hiDiv * duration, hiRem, WORD);
    Distribute(hiDiv * WORD, loSum / duration, duration);
    assert (hiDiv * duration) * WORD == (hiDiv * WORD) * duration;
    QuotientIs((hi * WORD + lo) * elapsed, duration, hiDiv * WORD + loSum / duration, loSum % duration);
  }

  /** The branch of `mul_div_u128` taken when `total * elapsed` does not fit in 128 bits; correct
      whether or not it does. Every intermediate is a checked u128. */
  function WideMulDiv(total: u128, elapsed: u64, duration: u64): (r: u128)
    requires elapsed < duration <= WORD / 2
    ensures r == (total * elapsed) / duration
  {
    var hi: u128 := ShiftRight64(total);
    var lo: u128 := LowWord(total);
    WideBranchFits(hi, lo, elapsed, duration);
    var hiProd: u128 := hi * elapsed;
    var loProd: u128 := lo * elapsed;
    var hiDiv: u128 := hiProd / duration;
    var hiRem: u128 := hiProd % duration;
    ShiftKeeps(hiRem);
    ShiftKeeps(hiDiv);
    var loSum: u128 := ShiftLeft64(hiRem) + loProd;
    QuotientBounds(loSum, duration);
    var loDiv: u128 := loSum / duration;
    WideBranchExact(hi, lo, elapsed, duration);
    FractionFits(total, elapsed, duration);
    ShiftLeft64(hiDiv) + loDiv
  }

  function MulDivU128(total: u128, elapsed: u64, duration: u64): (r: u128)
    requires elapsed < duration <= WORD / 2
    ensures r == (total * elapsed) / duration
  {
    match CheckedMulU128(total, elapsed)
    case Some(product) => QuotientBounds(product, duration); product / duration
    case None => WideMulDiv(total, elapsed, duration)
  }
}
