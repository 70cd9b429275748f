/** The timelock vault: when it may be emptied, and how its stored state is kept from being archived. */
module TimelockVault {
  import opened HostTypes

  const DAY_IN_LEDGERS: nat := 17_280
  const EXTEND_AMOUNT: nat := 120 * DAY_IN_LEDGERS
  const TTL_THRESHOLD: nat := EXTEND_AMOUNT - DAY_IN_LEDGERS

  /** A contract error, or a trap of the host: authorization missing, the token transfer failed, or an
      archived entry was touched. A failed call changes nothing. */
  datatype Failure = StillLocked | InvalidUnlockLedger | Trap

  /** A persistent entry, live up to and including ledger `liveUntil`, archived after it. */
  datatype Stored<+T> = Stored(value: T, liveUntil: nat) {
    predicate LiveAt(ledger: nat) { ledger <= liveUntil }

    /** `extend_ttl`: if fewer than `threshold` ledgers remain, bump to `extendTo`. */
    function Extended(ledger: nat, threshold: nat, extendTo: nat): Stored<T>
      requires LiveAt(ledger)
    {
      if liveUntil - ledger < threshold then Stored(value, ledger + extendTo) else this
    }
  }

  datatype State = State(owner: Stored<Address>, unlockLedger: Stored<u32>) {
    predicate LiveAt(ledger: nat) { owner.LiveAt(ledger) && unlockLedger.LiveAt(ledger) }
  }

  /** A call after construction, with what it observes. */
  datatype Call =
    | BumpTtl(ledger: u32)
    | Deposit(ledger: u32, authorized: bool, transferWorks: bool)
    | Withdraw(ledger: u32, authorized: bool, transferWorks: bool)

  /** `extend_state_ttl`: traps on an archived entry. */
  function ExtendState(st: State, ledger: u32): Result<State, Failure> {
    if !st.LiveAt(ledger) then Failure(Trap) else
    Success(State(st.owner.Extended(ledger, TTL_THRESHOLD, EXTEND_AMOUNT),
                  st.unlockLedger.Extended(ledger, TTL_THRESHOLD, EXTEND_AMOUNT)))
  }

  /** A new entry lives for the `initialTtl` further ledgers that the network grants. */
  function Construct(owner: Address, unlockLedger: u32, ledger: u32, initialTtl: nat): Result<State, Failure> {
    if unlockLedger <= ledger then Failure(InvalidUnlockLedger) else
    ExtendState(State(Stored(owner, ledger + initialTtl), Stored(unlockLedger, ledger + initialTtl)), ledger)
  }

  function Judge(st: State, call: Call): Result<State, Failure> {
    match call
    case BumpTtl(ledger) => ExtendState(st, ledger)
    case Deposit(ledger, authorized, transferWorks) =>
      if !authorized || !transferWorks then Failure(Trap) else ExtendState(st, ledger)
    case Withdraw(ledger, authorized, transferWorks) =>
      if !st.owner.LiveAt(ledger) || !authorized || !st.unlockLedger.LiveAt(ledger) then Failure(Trap)
      else if ledger < st.unlockLedger.value then Failure(StillLocked)
      else if !transferWorks then Failure(Trap)
      else ExtendState(st, ledger)
  }

  function After(st: State, call: Call): State {
    match Judge(st, call)
    case Success(next) => next
    case Failure(_) => st
  }

  // ---------- The contract ----------

  class TimelockVaultContract {
    var owner: Option<Stored<Address>>
    var unlockLedger: Option<Stored<u32>>

    predicate Deployed()
      reads this
    {
      owner.Some? && unlockLedger.Some?
    }

    function Contents(): State
      requires Deployed()
      reads this
    {
      State(owner.value, unlockLedger.value)
    }

    constructor ()
      ensures owner == None && unlockLedger == None
    {
      owner, unlockLedger := None, None;
    }

    method ExtendStateTtl(ledger: u32) returns (r: Result<(), Failure>)
      requires Deployed()
      modifies this
      ensures Deployed()
      ensures match ExtendState(old(Contents()), ledger)
              case Success(st) => r == Success(()) && Contents() == st
              case Failure(f) => r == Failure(f) && Contents() == old(Contents())
    {
      if !owner.value.LiveAt(ledger) || !unlockLedger.value.LiveAt(ledger) { return Failure(Trap); }
      owner := Some(owner.value.Extended(ledger, TTL_THRESHOLD, EXTEND_AMOUNT));
      unlockLedger := Some(unlockLedger.value.Extended(ledger, TTL_THRESHOLD, EXTEND_AMOUNT));
      r := Success(());
    }

    /** `__constructor`, which the host runs once on deployment. */
    method Deploy(owner: Address, unlockLedger: u32, ledger: u32, initialTtl: nat) returns (r: Result<(), Failure>)
      requires this.owner == None && this.unlockLedger == None
      modifies this
      ensures r == if unlockLedger > ledger then Success(()) else Failure(InvalidUnlockLedger)
      ensures r.Success? ==>
                && Deployed() && Contents().owner.value == owner && Contents().unlockLedger.value == unlockLedger
                && Contents().LiveAt(ledger + TTL_THRESHOLD)
      ensures match Construct(owner, unlockLedger, ledger, initialTtl)
              case Success(st) => r == Success(()) && Deployed() && Contents() == st
              case Failure(f) => r == Failure(f) && this.owner == None && this.unlockLedger == None
    {
      if unlockLedger <= ledger { return Failure(InvalidUnlockLedger); }
      this.owner := Some(Stored(owner, ledger + initialTtl));
      this.unlockLedger := Some(Stored(unlockLedger, ledger + initialTtl));
      r := ExtendStateTtl(ledger);
    }

    method Execute(call: Call) returns (r: Result<(), Failure>)
      requires Deployed()
      modifies this
      ensures Deployed() && Contents() == After(old(Contents()), call)
      ensures match Judge(old(Contents()), call)
              case Success(_) => r == Success(())
              case Failure(f) => r == Failure(f)
    {
      match call {
        case BumpTtl(ledger) =>
          r := ExtendStateTtl(ledger);
        case Deposit(ledger, authorized, transferWorks) =>
          if !authorized { return Failure(Trap); }
          if !transferWorks { return Failure(Trap); }
          r := ExtendStateTtl(ledger);
        case Withdraw(ledger, authorized, transferWorks) =>
          if !owner.value.LiveAt(ledger) { return Failure(Trap); }
          if !authorized { return Failure(Trap); }
          if !unlockLedger.value.LiveAt(ledger) { return Failure(Trap); }
          if ledger < unlockLedger.value.value { return Failure(StillLocked); }
          if !transferWorks { return Failure(Trap); }
          r := ExtendStateTtl(ledger);
      }
    }
  }

  // ---------- Runs ----------

  /** The state after the first `n` calls. */
  function StateAt(st: State, calls: seq<Call>, n: nat): State
    requires n <= |calls|
  {
    if n == 0 then st else After(StateAt(st, calls, n - 1), calls[n - 1])
  }

  function OutcomeAt(st: State, calls: seq<Call>, i: nat): Result<State, Failure>
    requires i < |calls|
  {
    Judge(StateAt(st, calls, i), calls[i])
  }

  /** A call that refreshes the state if the state is live: seen from outside, without looking at any TTL. */
  predicate Refreshes(call: Call, unlockLedger: u32) {
    match call
    case BumpTtl(_) => true
    case Deposit(_, authorized, transferWorks) => authorized && transferWorks
    case Withdraw(ledger, authorized, transferWorks) => authorized && transferWorks && ledger >= unlockLedger
  }

  /** The ledger of the last refreshing call among the first `n`, the construction included. */
  function LastRefresh(created: u32, unlockLedger: u32, calls: seq<Call>, n: nat): u32
    requires n <= |calls|
  {
    if n == 0 then created
    else if Refreshes(calls[n - 1], unlockLedger) then calls[n - 1].ledger
    else LastRefresh(created, unlockLedger, calls, n - 1)
  }

  /** No call of the run, refreshing or not, comes before the last refresh or more than `gap` ledgers after it. */
  ghost predicate Paced(created: u32, unlockLedger: u32, calls: seq<Call>, gap: nat) {
    forall i :: 0 <= i < |calls| ==> OnTime(created, unlockLedger, calls, gap, i)
  }

  ghost predicate OnTime(created: u32, unlockLedger: u32, calls: seq<Call>, gap: nat, i: nat)
    requires i < |calls|
  {
    var last := LastRefresh(created, unlockLedger, calls, i);
    last <= calls[i].ledger <= last + gap
  }

  /** Construction succeeds exactly when the unlock ledger is in the future, and stores what it was given. */
  lemma {:induction false} ConstructExactly(owner: Address, unlockLedger: u32, ledger: u32, initialTtl: nat)
    ensures var r := Construct(owner, unlockLedger, ledger, initialTtl);
            && (r.Success? <==> unlockLedger > ledger)
            && (r.Failure? ==> r.error == InvalidUnlockLedger)
            && (r.Success? ==> r.value.owner.value == owner && r.value.unlockLedger.value == unlockLedger)
  {
  }

  /** What one call does, on its fields: a bump needs live state; a deposit also its depositor's authorization and the
      transfer; a withdrawal also the owner's authorization, the unlock ledger and the transfer. On success each entry
      that has fewer than 119 days of ledgers left gets 120 days. */
  lemma {:induction false} JudgeExactly(st: State, call: Call)
    ensures Judge(st, call).Success? <==>
              && st.LiveAt(call.ledger)
              && match call
                 case BumpTtl(_) => true
                 case Deposit(_, authorized, transferWorks) => authorized && transferWorks
                 case Withdraw(ledger, authorized, transferWorks) =>
                   authorized && transferWorks && ledger >= st.unlockLedger.value
    ensures Judge(st, call).Failure? ==>
              Judge(st, call).error
              == if call.Withdraw? && st.LiveAt(call.ledger) && call.authorized && call.ledger < st.unlockLedger.value
                 then StillLocked else Trap
    ensures Judge(st, call).Success? ==>
              var now: nat := call.ledger;
              var next := Judge(st, call).value;
              && next.owner == (if st.owner.liveUntil - now < 119 * 17_280
                                then Stored(st.owner.value, now + 120 * 17_280) else st.owner)
              && next.unlockLedger == (if st.unlockLedger.liveUntil - now < 119 * 17_280
                                       then Stored(st.unlockLedger.value, now + 120 * 17_280) else st.unlockLedger)
  {
  }

  /** Owner and unlock ledger never change, in any run. */
  lemma {:induction false} Immutable(st: State, calls: seq<Call>, n: nat)
    requires n <= |calls|
    ensures StateAt(st, calls, n).owner.value == st.owner.value
    ensures StateAt(st, calls, n).unlockLedger.value == st.unlockLedger.value
  {
    if n > 0 { Immutable(st, calls, n - 1); }
  }

  /** The dual gate, in any run however badly paced: a withdrawal that succeeds was authorized by the owner
      set at construction and made at or after the unlock ledger set then. */
  lemma {:induction false} WithdrawalIsGated(st: State, calls: seq<Call>, i: nat)
    requires i < |calls| && calls[i].Withdraw? && OutcomeAt(st, calls, i).Success?
    ensures calls[i].authorized && calls[i].ledger >= st.unlockLedger.value && calls[i].transferWorks
  {
    Immutable(st, calls, i);
  }

  /** So no deployed vault is ever emptied at or before the ledger it was created in, nor before its unlock ledger. */
  lemma {:induction false} DeployedVaultIsGated(owner: Address, unlockLedger: u32, created: u32, initialTtl: nat,
                                               calls: seq<Call>, i: nat)
    requires Construct(owner, unlockLedger, created, initialTtl).Success? && i < |calls| && calls[i].Withdraw?
    requires OutcomeAt(Construct(owner, unlockLedger, created, initialTtl).value, calls, i).Success?
    ensures calls[i].authorized && calls[i].ledger >= unlockLedger > created
  {
    ConstructExactly(owner, unlockLedger, created, initialTtl);
    WithdrawalIsGated(Construct(owner, unlockLedger, created, initialTtl).value, calls, i);
  }

  lemma {:induction false} RefreshLasts(st: State, ledger: u32)
    requires st.LiveAt(ledger)
    ensures ExtendState(st, ledger).Success? && ExtendState(st, ledger).value.LiveAt(ledger + TTL_THRESHOLD)
  {
  }

  /** One well-paced call: it goes through exactly when it refreshes, and the state lasts from the newest refresh. */
  lemma {:induction false} KeepAliveStep(st: State, call: Call, last: u32)
    requires last <= call.ledger <= last + TTL_THRESHOLD && st.LiveAt(last + TTL_THRESHOLD)
    ensures var refreshes := Refreshes(call, st.unlockLedger.value);
            && (Judge(st, call).Success? <==> refreshes)
            && After(st, call).LiveAt((if refreshes then call.ledger else last) + TTL_THRESHOLD)
  {
    RefreshLasts(st, call.ledger);
  }

  /** Keep-alive: while calls come at most TTL_THRESHOLD ledgers after the last refresh, both entries are
      live from every refresh for TTL_THRESHOLD ledgers on. */
  lemma {:induction false} KeptAlive(st: State, created: u32, calls: seq<Call>, n: nat)
    requires n <= |calls| && Paced(created, st.unlockLedger.value, calls, TTL_THRESHOLD)
    requires st.LiveAt(created + TTL_THRESHOLD)
    ensures StateAt(st, calls, n).LiveAt(LastRefresh(created, st.unlockLedger.value, calls, n) + TTL_THRESHOLD)
  {
    if n > 0 {
      KeptAlive(st, created, calls, n - 1);
      Immutable(st, calls, n - 1);
      assert OnTime(created, st.unlockLedger.value, calls, TTL_THRESHOLD, n - 1);
      KeepAliveStep(StateAt(st, calls, n - 1), calls[n - 1], LastRefresh(created, st.unlockLedger.value, calls, n - 1));
    }
  }

  /** In a kept-alive run no call ever meets an archived entry: each succeeds or fails on its own merits, and
      an authorized withdrawal at or after the unlock ledger goes through, however long the lock. */
  lemma {:induction false} KeptAliveWithdraws(owner: Address, unlockLedger: u32, created: u32, initialTtl: nat,
                                             calls: seq<Call>, i: nat)
    requires unlockLedger > created && i < |calls|
    requires Paced(created, unlockLedger, calls, TTL_THRESHOLD)
    ensures Construct(owner, unlockLedger, created, initialTtl).Success?
    ensures var st := Construct(owner, unlockLedger, created, initialTtl).value;
            && StateAt(st, calls, i).LiveAt(calls[i].ledger)
            && (OutcomeAt(st, calls, i).Success? <==> Refreshes(calls[i], unlockLedger))
            && (calls[i].Withdraw? && calls[i].authorized && calls[i].ledger < unlockLedger ==>
                  OutcomeAt(st, calls, i) == Failure(StillLocked))
  {
    var st := Construct(owner, unlockLedger, created, initialTtl).value;
    KeptAlive(st, created, calls, i);
    Immutable(st, calls, i);
    assert OnTime(created, unlockLedger, calls, TTL_THRESHOLD, i);
  }

  // ---------- The exact pace ----------

  /** How long the state of a new vault lives, on a network that grants new entries `initialTtl` ledgers. */
  function FirstLife(initialTtl: nat): nat {
    if initialTtl < TTL_THRESHOLD then EXTEND_AMOUNT else initialTtl
  }

  /** Whoever calls within `gap` ledgers of the last refresh, in any run of a vault created at that ledger on that
      network, finds the state live. */
  ghost predicate PaceKeepsAlive(created: u32, initialTtl: nat, gap: nat) {
    forall owner: Address, unlockLedger: u32, calls: seq<Call> ::
      unlockLedger > created && Paced(created, unlockLedger, calls, gap) ==>
        FoundLive(owner, unlockLedger, created, initialTtl, calls)
  }

  ghost predicate FoundLive(owner: Address, unlockLedger: u32, created: u32, initialTtl: nat, calls: seq<Call>) {
    Construct(owner, unlockLedger, created, initialTtl).Success? ==>
      forall i :: 0 <= i < |calls| ==>
        StateAt(Construct(owner, unlockLedger, created, initialTtl).value, calls, i).LiveAt(calls[i].ledger)
  }

  lemma {:induction false} BumpedInVain(st: State, ledger: u32, life: nat)
    requires st.owner.liveUntil == st.unlockLedger.liveUntil == ledger + life && life >= TTL_THRESHOLD
    ensures After(st, BumpTtl(ledger)) == st && Judge(st, BumpTtl(ledger)).Success?
  {
  }

  /** A bump at every ledger from construction on, as long as TTL_THRESHOLD ledgers remain; then a due,
      authorized withdrawal one ledger after the state has run out. */
  function BumpsThenWithdrawal(created: u32, life: nat): (calls: seq<Call>)
    requires life >= TTL_THRESHOLD && created + life + 1 <= U32_MAX
    ensures |calls| == life - TTL_THRESHOLD + 2
  {
    seq(life - TTL_THRESHOLD + 1, i requires 0 <= i <= life - TTL_THRESHOLD => BumpTtl(created + i))
    + [Withdraw(created + life + 1, true, true)]
  }

  /** Every one of these bumps succeeds and extends nothing. */
  lemma {:induction false} BumpsChangeNothing(st: State, created: u32, life: nat, n: nat)
    requires life >= TTL_THRESHOLD && created + life + 1 <= U32_MAX && n <= life - TTL_THRESHOLD + 1
    requires st.owner.liveUntil == st.unlockLedger.liveUntil == created + life
    ensures var calls := BumpsThenWithdrawal(created, life);
            && StateAt(st, calls, n) == st
            && LastRefresh(created, st.unlockLedger.value, calls, n) == created + Monus(n, 1)
            && (n <= life - TTL_THRESHOLD ==> OutcomeAt(st, calls, n).Success?)
  {
    var calls := BumpsThenWithdrawal(created, life);
    if n > 0 {
      BumpsChangeNothing(st, created, life, n - 1);
      assert calls[n - 1] == BumpTtl(created + (n - 1));
      BumpedInVain(st, created + (n - 1), life - (n - 1));
    }
    if n <= life - TTL_THRESHOLD {
      assert calls[n] == BumpTtl(created + n);
      BumpedInVain(st, created + n, life - n);
    }
  }

  /** One ledger too late, for every vault on every network: however often it was bumped before, a last bump that
      finds exactly TTL_THRESHOLD ledgers left extends nothing, and a due withdrawal TTL_THRESHOLD + 1 ledgers
      after it meets archived state. */
  lemma {:induction false} OneLedgerTooLate(owner: Address, created: u32, initialTtl: nat)
    requires created + FirstLife(initialTtl) + 1 <= U32_MAX
    ensures var late := created + FirstLife(initialTtl) + 1;
            var calls := BumpsThenWithdrawal(created, FirstLife(initialTtl));
            var n := |calls| - 1;
            && Construct(owner, late, created, initialTtl).Success?
            && Paced(created, late, calls, TTL_THRESHOLD + 1)
            && (forall i :: 0 <= i < n ==>
                  OutcomeAt(Construct(owner, late, created, initialTtl).value, calls, i).Success?)
            && calls[n] == Withdraw(late, true, true)
            && OutcomeAt(Construct(owner, late, created, initialTtl).value, calls, n) == Failure(Trap)
            && !FoundLive(owner, late, created, initialTtl, calls)
  {
    var life := FirstLife(initialTtl);
    var late: u32 := created + life + 1;
    var calls := BumpsThenWithdrawal(created, life);
    var n := |calls| - 1;
    var st := Construct(owner, late, created, initialTtl).value;
    forall i | 0 <= i < n ensures OutcomeAt(st, calls, i).Success? {
      BumpsChangeNothing(st, created, life, i);
    }
    BumpsChangeNothing(st, created, life, n);
    var gap := TTL_THRESHOLD + 1;
    forall i | 0 <= i < |calls| ensures OnTime(created, late, calls, gap, i) {
      BumpsChangeNothing(st, created, life, i);
      assert i < n ==> calls[i] == BumpTtl(created + i);
    }
    assert !StateAt(st, calls, n).LiveAt(calls[n].ledger);
  }

  lemma {:induction false} PaceLoosens(created: u32, unlockLedger: u32, calls: seq<Call>, gap: nat, wider: nat)
    requires Paced(created, unlockLedger, calls, gap) && gap <= wider
    ensures Paced(created, unlockLedger, calls, wider)
  {
    forall i | 0 <= i < |calls| ensures OnTime(created, unlockLedger, calls, wider, i) {
      assert OnTime(created, unlockLedger, calls, gap, i);
    }
  }

  /** Calls never shorten a life. */
  lemma {:induction false} LifeNeverShrinks(st: State, calls: seq<Call>, n: nat, ledger: nat)
    requires n <= |calls| && st.LiveAt(ledger)
    ensures StateAt(st, calls, n).LiveAt(ledger)
  {
    if n > 0 { LifeNeverShrinks(st, calls, n - 1, ledger); }
  }

  lemma {:induction false} PaceSuffices(owner: Address, unlockLedger: u32, created: u32, initialTtl: nat,
                                       calls: seq<Call>, gap: nat)
    requires unlockLedger > created && Paced(created, unlockLedger, calls, gap)
    requires gap <= TTL_THRESHOLD || created + FirstLife(initialTtl) >= U32_MAX
    ensures FoundLive(owner, unlockLedger, created, initialTtl, calls)
  {
    var st := Construct(owner, unlockLedger, created, initialTtl).value;
    forall i | 0 <= i < |calls| ensures StateAt(st, calls, i).LiveAt(calls[i].ledger) {
      if gap <= TTL_THRESHOLD {
        PaceLoosens(created, unlockLedger, calls, gap, TTL_THRESHOLD);
        KeptAliveWithdraws(owner, unlockLedger, created, initialTtl, calls, i);
      } else {
        LifeNeverShrinks(st, calls, i, created + FirstLife(initialTtl));
      }
    }
  }

  /** For every vault on every network: a pace of refreshes keeps the state live on every run if and only if it is at
      most TTL_THRESHOLD, or the first life already outlasts the last ledger number there is. */
  lemma {:induction false} PaceExactly(created: u32, initialTtl: nat, gap: nat)
    ensures PaceKeepsAlive(created, initialTtl, gap)
       <==> gap <= TTL_THRESHOLD || created + FirstLife(initialTtl) >= U32_MAX
  {
    if gap <= TTL_THRESHOLD || created + FirstLife(initialTtl) >= U32_MAX {
      forall owner: Address, unlockLedger: u32, calls: seq<Call>
        | unlockLedger > created && Paced(created, unlockLedger, calls, gap)
        ensures FoundLive(owner, unlockLedger, created, initialTtl, calls)
      {
        PaceSuffices(owner, unlockLedger, created, initialTtl, calls, gap);
      }
    } else {
      var owner, late := Address(0), created + FirstLife(initialTtl) + 1;
      OneLedgerTooLate(owner, created, initialTtl);
      PaceLoosens(created, late, BumpsThenWithdrawal(created, FirstLife(initialTtl)), TTL_THRESHOLD + 1, gap);
    }
  }

  /** The documented pace, one refresh per EXTEND_AMOUNT ledgers, is not enough for any vault that can outlive its
      first life. */
  lemma {:induction false} DocumentedPaceFails(created: u32, initialTtl: nat)
    requires created + FirstLife(initialTtl) < U32_MAX
    ensures !PaceKeepsAlive(created, initialTtl, EXTEND_AMOUNT)
  {
    PaceExactly(created, initialTtl, EXTEND_AMOUNT);
  }
}
