/** What the vesting schedule guarantees: the shape of the vesting function, and what every run of
    claims pays out. */
module VestingRuns {
  import opened Arithmetic
  import opened HostTypes
  import opened VestingMath
  import opened Vesting

  // ---------- The shape of the vesting function ----------

  /** Before the cliff nothing, after the end everything, in between exactly the linear share
      rounded down: both casts and the 128-bit product are exact. */
  lemma {:induction false} VestedExactly(s: ScheduleData, ledger: u32)
    requires ValidSchedule(s)
    ensures VestedAt(s, ledger)
         == if ledger < s.startLedger || (s.cliffLedger.Some? && ledger < s.cliffLedger.value) then 0
            else if ledger >= s.endLedger then s.totalAmount
            else (s.totalAmount * (ledger - s.startLedger)) / (s.endLedger - s.startLedger)
    ensures 0 <= VestedAt(s, ledger) <= s.totalAmount
  {
    if s.startLedger <= ledger < s.endLedger {
      FractionFits(s.totalAmount, ledger - s.startLedger, s.endLedger - s.startLedger);
    }
  }

  lemma {:induction false} ShareIsMonotone(total: nat, x: nat, y: nat, d: int)
    requires d > 0 && x <= y
    ensures (total * x) / d <= (total * y) / d
  {
    MulMonotone(0, x, total);
    MulMonotone(x, y, total);
    QuotientMonotone(total * x, total * y, d);
  }

  /** Vesting never goes back, across the start, the cliff and the end. */
  lemma {:induction false} VestedIsMonotone(s: ScheduleData, a: u32, b: u32)
    requires ValidSchedule(s) && a <= b
    ensures VestedAt(s, a) <= VestedAt(s, b)
  {
    VestedExactly(s, a);
    VestedExactly(s, b);
    if s.startLedger <= a && b < s.endLedger {
      ShareIsMonotone(s.totalAmount, a - s.startLedger, b - s.startLedger, s.endLedger - s.startLedger);
    }
  }

  /** The share between two ledgers is the floor of its exact size, or one more. */
  lemma {:induction false} FloorOfSum(x: nat, y: nat, d: int)
    requires d > 0
    ensures y / d <= (x + y) / d - x / d <= y / d + 1
  {
    DivisionLaw(x, d);
    DivisionLaw(y, d);
    var rest := x % d + y % d;
    Distribute(x / d, y / d, d);
    if rest < d {
      QuotientIs(x + y, d, x / d + y / d, rest);
    } else {
      Distribute(x / d + y / d, 1, d);
      QuotientIs(x + y, d, x / d + y / d + 1, rest - d);
    }
  }

  /** Linear between the end points: the formula also gives the total at the end. */
  lemma {:induction false} LinearPart(s: ScheduleData, ledger: u32)
    requires ValidSchedule(s) && s.startLedger <= ledger <= s.endLedger
    requires s.cliffLedger.Some? ==> s.cliffLedger.value <= ledger
    ensures VestedAt(s, ledger) == (s.totalAmount * (ledger - s.startLedger)) / (s.endLedger - s.startLedger)
  {
    VestedExactly(s, ledger);
    var duration := s.endLedger - s.startLedger;
    if ledger == s.endLedger { QuotientIs(s.totalAmount * duration, duration, s.totalAmount, 0); }
  }

  lemma {:induction false} ShareOfStretch(total: nat, x: nat, y: nat, d: int)
    requires d > 0
    ensures (total * y) / d <= (total * (x + y)) / d - (total * x) / d <= (total * y) / d + 1
  {
    MulMonotone(0, x, total);
    MulMonotone(0, y, total);
    Distribute(x, y, total);
    FloorOfSum(total * x, total * y, d);
  }

  /** Even release: past the cliff, any stretch of ledgers releases its exact share, rounded down or up. */
  lemma {:induction false} EvenRelease(s: ScheduleData, a: u32, b: u32)
    requires ValidSchedule(s) && s.startLedger <= a <= b <= s.endLedger
    requires s.cliffLedger.Some? ==> s.cliffLedger.value <= a
    ensures var share := (s.totalAmount * (b - a)) / (s.endLedger - s.startLedger);
            share <= VestedAt(s, b) - VestedAt(s, a) <= share + 1
  {
    LinearPart(s, a);
    LinearPart(s, b);
    ShareOfStretch(s.totalAmount, a - s.startLedger, b - a, s.endLedger - s.startLedger);
  }

  // ---------- Runs ----------

  /** The state after the first `n` steps. */
  function StateAt(st: State, run: seq<Step>, n: nat): State
    requires n <= |run|
  {
    if n == 0 then st else Take(StateAt(st, run, n - 1), run[n - 1]).0
  }

  /** What step `i` returned. */
  function ReturnedAt(st: State, run: seq<Step>, i: nat): Result<i128, Failure>
    requires i < |run|
  {
    Take(StateAt(st, run, i), run[i]).1
  }

  predicate Paid(st: State, run: seq<Step>, i: nat)
    requires i < |run|
  {
    run[i].Claim? && ReturnedAt(st, run, i).Success?
  }

  /** The sum of what the successful claims among the first `n` steps returned. */
  function PaidOut(st: State, run: seq<Step>, n: nat): int
    requires n <= |run|
  {
    if n == 0 then 0 else
    PaidOut(st, run, n - 1) + if Paid(st, run, n - 1) then ReturnedAt(st, run, n - 1).value else 0
  }

  /** The part of it that was sent to the contract's own address. */
  function PaidToSelf(st: State, run: seq<Step>, n: nat): int
    requires n <= |run|
  {
    if n == 0 then 0 else
    PaidToSelf(st, run, n - 1)
    + if Paid(st, run, n - 1) && run[n - 1].to == st.self then ReturnedAt(st, run, n - 1).value else 0
  }

  function Funded(run: seq<Step>, n: nat): nat
    requires n <= |run|
  {
    if n == 0 then 0 else Funded(run, n - 1) + if run[n - 1].Fund? then run[n - 1].amount else 0
  }

  /** The ledger of the last successful claim among the first `n` steps. */
  function LastClaim(st: State, run: seq<Step>, n: nat): Option<u32>
    requires n <= |run|
  {
    if n == 0 then None else if Paid(st, run, n - 1) then Some(run[n - 1].ledger) else LastClaim(st, run, n - 1)
  }

  /** Claims happen at non-decreasing ledgers. */
  ghost predicate Chronological(run: seq<Step>) {
    forall i, j :: 0 <= i < j < |run| && run[i].Claim? && run[j].Claim? ==> run[i].ledger <= run[j].ledger
  }

  ghost predicate Fresh(st: State) {
    ValidSchedule(st.schedule) && st.schedule.claimedAmount == 0
  }

  /** What is claimed after a run whose last successful claim was at `last`. */
  function DueAt(s: ScheduleData, last: Option<u32>): i128 {
    match last
    case None => 0
    case Some(ledger) => VestedAt(s, ledger)
  }

  /** One claim: nothing saturates, the fallback is not taken, and the total claimed becomes what
      is vested now. */
  lemma {:induction false} ClaimIsExact(st: State, authorized: bool, to: Address, ledger: u32, tokenAccepts: bool)
    requires ValidSchedule(st.schedule) && 0 <= st.schedule.claimedAmount <= VestedAt(st.schedule, ledger)
    ensures var due := VestedAt(st.schedule, ledger) - st.schedule.claimedAmount;
            && SaturatingSub(VestedAt(st.schedule, ledger), st.schedule.claimedAmount) == due
            && CheckedAdd(st.schedule.claimedAmount, due) == Some(VestedAt(st.schedule, ledger))
            && var (after, r) := ClaimStep(st, authorized, to, ledger, tokenAccepts);
               && (r.Success? <==> authorized && (due == 0 || (tokenAccepts && BalanceOf(st.balances, st.self) >= due)))
               && (r.Failure? ==> after == st)
               && (r.Success? ==>
                     && r.value == due && after.self == st.self
                     && after.schedule == st.schedule.(claimedAmount := VestedAt(st.schedule, ledger))
                     && BalanceOf(after.balances, st.self)
                        == BalanceOf(st.balances, st.self) - (if to == st.self then 0 else due)
                     && (to != st.self ==> BalanceOf(after.balances, to) == BalanceOf(st.balances, to) + due)
                     && (forall a :: a != st.self && a != to ==>
                           BalanceOf(after.balances, a) == BalanceOf(st.balances, a)))
  {
    VestedExactly(st.schedule, ledger);
  }

  /** Only claims touch the schedule, and they touch nothing in it but the claimed amount. */
  lemma {:induction false} TermsKept(st: State, run: seq<Step>, n: nat)
    requires n <= |run|
    ensures var s := StateAt(st, run, n);
            s.self == st.self && s.schedule == st.schedule.(claimedAmount := s.schedule.claimedAmount)
  {
    if n > 0 { TermsKept(st, run, n - 1); }
  }

  lemma {:induction false} LastClaimIsEarlier(st: State, run: seq<Step>, n: nat, i: nat)
    requires n <= i < |run| && Chronological(run) && run[i].Claim?
    ensures LastClaim(st, run, n).Some? ==> LastClaim(st, run, n).value <= run[i].ledger
  {
    if n > 0 { LastClaimIsEarlier(st, run, n - 1, i); }
  }

  /** Path independence: after any run, the claimed amount is what was vested at the last successful
      claim, however claims were spaced, and it is the sum of what the claims returned. */
  lemma {:induction false} ClaimedIsVested(st: State, run: seq<Step>, n: nat)
    requires Fresh(st) && n <= |run| && Chronological(run)
    ensures StateAt(st, run, n).schedule.claimedAmount == DueAt(st.schedule, LastClaim(st, run, n))
    ensures PaidOut(st, run, n) == DueAt(st.schedule, LastClaim(st, run, n))
    ensures 0 <= PaidOut(st, run, n) <= st.schedule.totalAmount
  {
    if LastClaim(st, run, n).Some? { VestedExactly(st.schedule, LastClaim(st, run, n).value); }
    if n > 0 {
      ClaimedIsVested(st, run, n - 1);
      if run[n - 1].Claim? { ClaimStepExact(st, run, n - 1); }
    }
  }

  lemma {:induction false} SameVesting(s: ScheduleData, t: ScheduleData, ledger: u32)
    requires t == s.(claimedAmount := t.claimedAmount)
    ensures VestedAt(s, ledger) == VestedAt(t, ledger)
  {
  }

  /** ClaimIsExact, for the claim at step `i` of a run. */
  lemma {:induction false} ClaimStepExact(st: State, run: seq<Step>, i: nat)
    requires Fresh(st) && i < |run| && Chronological(run) && run[i].Claim?
    requires StateAt(st, run, i).schedule.claimedAmount == DueAt(st.schedule, LastClaim(st, run, i))
    ensures var (before, after) := (StateAt(st, run, i), StateAt(st, run, i + 1));
            var due := VestedAt(st.schedule, run[i].ledger) - before.schedule.claimedAmount;
            && due >= 0
            && (Paid(st, run, i) <==>
                  (run[i].authorized
                   && (due == 0 || (run[i].tokenAccepts && BalanceOf(before.balances, st.self) >= due))))
            && (!Paid(st, run, i) ==> after == before)
            && (Paid(st, run, i) ==>
                  && ReturnedAt(st, run, i).value == due
                  && after.schedule.claimedAmount == VestedAt(st.schedule, run[i].ledger)
                  && BalanceOf(after.balances, st.self)
                     == BalanceOf(before.balances, st.self) - (if run[i].to == st.self then 0 else due))
  {
    var before := StateAt(st, run, i);
    TermsKept(st, run, i);
    LastClaimIsEarlier(st, run, i, i);
    var c := run[i];
    VestedExactly(st.schedule, c.ledger);
    if LastClaim(st, run, i).Some? {
      VestedIsMonotone(st.schedule, LastClaim(st, run, i).value, c.ledger);
      VestedExactly(st.schedule, LastClaim(st, run, i).value);
    }
    SameVesting(st.schedule, before.schedule, c.ledger);
    ClaimIsExact(before, c.authorized, c.to, c.ledger, c.tokenAccepts);
  }

  /** Every amount returned by a claim is non-negative, and nothing is left over at the end: a claim
      at or after the end ledger brings the sum of all claims to exactly the total. */
  lemma {:induction false} NoDust(st: State, run: seq<Step>, i: nat)
    requires Fresh(st) && i < |run| && Chronological(run) && Paid(st, run, i)
    ensures ReturnedAt(st, run, i).value >= 0
    ensures run[i].ledger >= st.schedule.endLedger ==> PaidOut(st, run, i + 1) == st.schedule.totalAmount
  {
    ClaimedIsVested(st, run, i);
    ClaimStepExact(st, run, i);
    ClaimedIsVested(st, run, i + 1);
    VestedExactly(st.schedule, run[i].ledger);
  }

  /** Conservation: the contract's balance, plus what it paid out, is what it held and was funded with,
      plus what it paid to itself. */
  lemma {:induction false} Conservation(st: State, run: seq<Step>, n: nat)
    requires Fresh(st) && n <= |run| && Chronological(run)
    ensures BalanceOf(StateAt(st, run, n).balances, st.self) + PaidOut(st, run, n)
         == BalanceOf(st.balances, st.self) + Funded(run, n) + PaidToSelf(st, run, n)
    ensures 0 <= PaidToSelf(st, run, n)
  {
    if n > 0 {
      Conservation(st, run, n - 1);
      TermsKept(st, run, n - 1);
      if run[n - 1].Claim? {
        ClaimedIsVested(st, run, n - 1);
        ClaimStepExact(st, run, n - 1);
      }
    }
  }

  /** A claim that sent a positive amount to the contract's own address. */
  predicate SelfPayment(st: State, run: seq<Step>, i: nat)
    requires i < |run|
  {
    Paid(st, run, i) && run[i].to == st.self && ReturnedAt(st, run, i).value > 0
  }

  /** Balance plus claimed equals funding exactly when no claim paid the contract itself. */
  lemma {:induction false} ConservationExactly(st: State, run: seq<Step>, n: nat)
    requires Fresh(st) && n <= |run| && Chronological(run)
    ensures var after := StateAt(st, run, n);
            BalanceOf(after.balances, st.self) + after.schedule.claimedAmount
              == BalanceOf(st.balances, st.self) + Funded(run, n)
            <==> NoSelfPayment(st, run, n)
  {
    Conservation(st, run, n);
    ClaimedIsVested(st, run, n);
    SelfPaymentsCount(st, run, n);
  }

  lemma {:induction false} SelfPaymentStep(st: State, run: seq<Step>, i: nat)
    requires Fresh(st) && i < |run| && Chronological(run)
    ensures PaidToSelf(st, run, i) <= PaidToSelf(st, run, i + 1)
    ensures SelfPayment(st, run, i) <==> PaidToSelf(st, run, i + 1) > PaidToSelf(st, run, i)
  {
    if Paid(st, run, i) { NoDust(st, run, i); }
  }

  ghost predicate NoSelfPayment(st: State, run: seq<Step>, n: nat)
    requires n <= |run|
  {
    forall i :: 0 <= i < n ==> !SelfPayment(st, run, i)
  }

  lemma {:induction false} NoSelfPaymentStep(st: State, run: seq<Step>, n: nat)
    requires n < |run|
    ensures NoSelfPayment(st, run, n + 1) <==> NoSelfPayment(st, run, n) && !SelfPayment(st, run, n)
  {
    if NoSelfPayment(st, run, n + 1) { assert !SelfPayment(st, run, n); }
  }

  lemma {:induction false} SelfPaymentsCount(st: State, run: seq<Step>, n: nat)
    requires Fresh(st) && n <= |run| && Chronological(run)
    ensures PaidToSelf(st, run, n) >= 0
    ensures PaidToSelf(st, run, n) == 0
       <==> NoSelfPayment(st, run, n)
  {
    if n > 0 {
      SelfPaymentsCount(st, run, n - 1);
      SelfPaymentStep(st, run, n - 1);
      NoSelfPaymentStep(st, run, n - 1);
    }
  }

  /** Solvency: a contract that was funded with the total can always pay. Every authorized claim the
      token does not refuse succeeds, and pays what is vested and not yet claimed. */
  lemma {:induction false} FundedClaimSucceeds(st: State, run: seq<Step>, i: nat)
    requires Fresh(st) && i < |run| && Chronological(run)
    requires BalanceOf(st.balances, st.self) + Funded(run, i) >= st.schedule.totalAmount
    requires run[i].Claim? && run[i].authorized && run[i].tokenAccepts
    ensures Paid(st, run, i)
    ensures ReturnedAt(st, run, i).value
         == VestedAt(st.schedule, run[i].ledger) - DueAt(st.schedule, LastClaim(st, run, i))
  {
    Conservation(st, run, i);
    ClaimedIsVested(st, run, i);
    ClaimStepExact(st, run, i);
    VestedExactly(st.schedule, run[i].ledger);
  }
}
