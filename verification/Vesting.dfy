/** The vesting schedule contract: how much is vested at a ledger, and what a claim does to the
    stored schedule and to the token balances. */
module Vesting {
  import opened Arithmetic
  import opened HostTypes
  import opened VestingMath

  datatype Error = AlreadyInitialized | InvalidAmount | InvalidLedgerRange | InvalidCliffLedger | NotInitialized

  /** A contract error, or a trap of the host: authorization missing, or the token transfer failed. */
  datatype Failure = Panic(error: Error) | Trap

  datatype ScheduleData = ScheduleData(
    owner: Address,
    token: Address,
    totalAmount: i128,
    startLedger: u32,
    cliffLedger: Option<u32>,
    endLedger: u32,
    claimedAmount: i128)

  // ---------- The vesting function ----------

  function ComputeVested(total: i128, start: u32, cliff: Option<u32>, end: u32, current: u32): i128 {
    if current < start then 0
    else if cliff.Some? && current < cliff.value then 0
    else if current >= end then total
    else AsI128(MulDivU128(AsU128(total), current - start, end - start))
  }

  function VestedAt(s: ScheduleData, ledger: u32): i128 {
    ComputeVested(s.totalAmount, s.startLedger, s.cliffLedger, s.endLedger, ledger)
  }

  // ---------- Token balances ----------

  type Balances = map<Address, nat>

  function BalanceOf(b: Balances, a: Address): nat { if a in b then b[a] else 0 }

  /** A SEP-41 transfer: moves exactly the amount, or fails and changes nothing. */
  function Transfer(b: Balances, from: Address, to: Address, amount: nat): Option<Balances> {
    if BalanceOf(b, from) < amount then None else
    var debited := b[from := BalanceOf(b, from) - amount];
    Some(debited[to := BalanceOf(debited, to) + amount])
  }

  // ---------- One step ----------

  /** The contract's address and schedule, and the balances of its token. */
  datatype State = State(self: Address, schedule: ScheduleData, balances: Balances)

  /** A claim, with what it observes, or tokens arriving at the contract from anywhere else. */
  datatype Step =
    | Claim(authorized: bool, to: Address, ledger: u32, tokenAccepts: bool)
    | Fund(amount: nat)

  function ClaimStep(st: State, authorized: bool, to: Address, ledger: u32, tokenAccepts: bool)
    : (State, Result<i128, Failure>)
  {
    var s := st.schedule;
    if !authorized then (st, Failure(Trap)) else
    var claimable := SaturatingSub(VestedAt(s, ledger), s.claimedAmount);
    if claimable <= 0 then (st, Success(claimable)) else
    var claimed := match CheckedAdd(s.claimedAmount, claimable) case Some(sum) => sum case None => s.totalAmount;
    match Transfer(st.balances, st.self, to, claimable)
    case None => (st, Failure(Trap))
    case Some(balances) =>
      if !tokenAccepts then (st, Failure(Trap)) else
      (State(st.self, s.(claimedAmount := claimed), balances), Success(claimable))
  }

  function Take(st: State, step: Step): (State, Result<i128, Failure>) {
    match step
    case Claim(authorized, to, ledger, tokenAccepts) => ClaimStep(st, authorized, to, ledger, tokenAccepts)
    case Fund(amount) =>
      (st.(balances := st.balances[st.self := BalanceOf(st.balances, st.self) + amount]), Success(0))
  }

  /** What the constructor accepts. */
  predicate ValidTerms(total: i128, start: u32, cliff: Option<u32>, end: u32) {
    total > 0 && start < end && (cliff.Some? ==> start <= cliff.value <= end)
  }

  predicate ValidSchedule(s: ScheduleData) {
    ValidTerms(s.totalAmount, s.startLedger, s.cliffLedger, s.endLedger)
  }

  // ---------- The contract ----------

  class VestingScheduleContract {
    const self: Address
    var schedule: Option<ScheduleData>
    var balances: Balances  // of the schedule's token

    ghost predicate Valid()
      reads this
    {
      schedule.Some? ==> ValidSchedule(schedule.value)
    }

    constructor (self: Address, balances: Balances)
      ensures Valid() && this.self == self && schedule == None && this.balances == balances
    {
      this.self := self;
      this.schedule := None;
      this.balances := balances;
    }

    /** `__constructor`. */
    method Construct(owner: Address, token: Address, total: i128, start: u32, cliff: Option<u32>, end: u32)
      returns (r: Result<(), Failure>)
      requires Valid()
      modifies this`schedule
      ensures Valid()
      ensures r.Success? <==> old(schedule) == None && total > 0 && start < end
                              && (cliff.Some? ==> start <= cliff.value <= end)
      ensures r.Success? ==> schedule == Some(ScheduleData(owner, token, total, start, cliff, end, 0))
      ensures r.Failure? ==> schedule == old(schedule)
      ensures r.Failure? ==> r.error == Panic(if old(schedule).Some? then AlreadyInitialized
                                              else if total <= 0 then InvalidAmount
                                              else if start >= end then InvalidLedgerRange
                                              else InvalidCliffLedger)
    {
      if schedule.Some? { return Failure(Panic(AlreadyInitialized)); }
      if total <= 0 { return Failure(Panic(InvalidAmount)); }
      if start >= end { return Failure(Panic(InvalidLedgerRange)); }
      if cliff.Some? {
        if cliff.value < start || cliff.value > end { return Failure(Panic(InvalidCliffLedger)); }
      }
      schedule := Some(ScheduleData(owner, token, total, start, cliff, end, 0));
      r := Success(());
    }

    method ClaimVested(authorized: bool, to: Address, ledger: u32, tokenAccepts: bool)
      returns (r: Result<i128, Failure>)
      requires Valid()
      modifies this`schedule, this`balances
      ensures Valid()
      ensures old(schedule).None? ==>
                r == Failure(Panic(NotInitialized)) && schedule == old(schedule) && balances == old(balances)
      ensures old(schedule).Some? ==>
                var (after, result) :=
                  ClaimStep(State(self, old(schedule).value, old(balances)), authorized, to, ledger, tokenAccepts);
                r == result && schedule == Some(after.schedule) && balances == after.balances
    {
      if schedule.None? { return Failure(Panic(NotInitialized)); }
      var s := schedule.value;
      if !authorized { return Failure(Trap); }

      var vested := ComputeVested(s.totalAmount, s.startLedger, s.cliffLedger, s.endLedger, ledger);
      var claimable := SaturatingSub(vested, s.claimedAmount);
      if claimable > 0 {
        var sum := CheckedAdd(s.claimedAmount, claimable);
        s := s.(claimedAmount := if sum.Some? then sum.value else s.totalAmount);
        // A failed transfer rolls the whole call back, the store of `s` included.
        var moved := Transfer(balances, self, to, claimable);
        if moved.None? || !tokenAccepts { return Failure(Trap); }
        schedule := Some(s);
        balances := moved.value;
      }
      r := Success(claimable);
    }

    /** What an authorized claim at that ledger returns, to whomever it pays, from a contract that holds as
        much of a token that accepts the transfer. */
    method ClaimableAmount(ledger: u32) returns (r: Result<i128, Failure>)
      requires Valid()
      ensures schedule.None? <==> r == Failure(Panic(NotInitialized))
      ensures schedule.Some? ==>
                && r.Success?
                && forall b: Balances, to: Address :: BalanceOf(b, self) >= r.value ==>
                     ClaimStep(State(self, schedule.value, b), true, to, ledger, true).1 == r
    {
      if schedule.None? { return Failure(Panic(NotInitialized)); }
      r := Success(SaturatingSub(VestedAt(schedule.value, ledger), schedule.value.claimedAmount));
    }
  }
}
