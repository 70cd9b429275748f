/** The multi-token spending limit policy: a USD cap over a rolling window of ledgers, priced
    through an oracle. This file holds the stored data, the decision taken on one call, and the
    contract that keeps one entry per (smart account, context rule). */
module SpendingLimit {
  import opened HostTypes

  datatype Error =
    | InvalidContextRule | InvalidInstallParams | AlreadyInstalled | NotInstalled
    | TokenNotAllowed | InvalidTransferArgs | StaleOraclePrice | SpendingLimitExceeded
    | HistoryCapacityExceeded | InvalidOracleResponse | InvalidTokenResponse
    | AmountConversionOverflow

  /** A call that did not go through: a contract error, or a trap of the host (authorization
      missing, or a called contract reverted). Either way the host rolls the call back. */
  datatype Failure = Panic(error: Error) | Trap

  const MAX_HISTORY_ENTRIES := 1000
  const MAX_STALENESS_LEDGERS := 100
  const LEDGER_CLOSE_TIME_SECS := 5
  const MAX_ORACLE_DECIMALS := 30
  const MAX_TOKEN_DECIMALS := 20

  datatype SpendingEntry = SpendingEntry(amountUsd: i128, ledger: u32)

  datatype PolicyData = PolicyData(
    spendingLimitUsd: i128,
    periodLedgers: u32,
    oracleAddress: Address,
    usdDivisor: i128,
    allowedTokens: seq<Address>,
    tokenDivisors: seq<i128>,
    spendingHistory: seq<SpendingEntry>,
    cachedTotalSpentUsd: i128)

  datatype InstallParams = InstallParams(
    spendingLimitUsd: i128,
    periodLedgers: u32,
    oracleAddress: Address,
    allowedTokens: seq<Address>)

  datatype PriceData = PriceData(price: i128, timestamp: u64)

  /** One call of `enforce`, with everything it observes: whether the smart account authorized
      it, the call it guards, the ledger, and whatever the oracle answered. */
  datatype Attempt = Attempt(
    authorized: bool,
    context: Context,
    env: Env,
    reply: Reply<Option<PriceData>>)

  /** A priced transfer. */
  datatype Quote = Quote(token: Address, amount: i128, price: i128, tokenDivisor: i128, usd: i128)

  // ---------- Oracle and token replies ----------

  function Pow10(n: nat): (r: nat)
    ensures r >= 1
  {
    if n == 0 then 1 else 10 * Pow10(n - 1)
  }

  function CheckedPow10(n: nat): Option<i128> {
    if Pow10(n) <= I128_MAX then Some(Pow10(n)) else None
  }

  function FetchDivisor(reply: Reply<u32>, maxDecimals: nat, error: Error): Result<i128, Failure> {
    match reply
    case Reverted => Failure(Trap)
    case Returned(decimals) =>
      if decimals > maxDecimals then Failure(Panic(error)) else
      match CheckedPow10(decimals)
      case None => Failure(Panic(error))
      case Some(divisor) => Success(divisor)
  }

  function FetchUsdDivisor(reply: Reply<u32>): Result<i128, Failure> {
    FetchDivisor(reply, MAX_ORACLE_DECIMALS, InvalidOracleResponse)
  }

  function FetchTokenDivisor(reply: Reply<u32>): Result<i128, Failure> {
    FetchDivisor(reply, MAX_TOKEN_DECIMALS, InvalidTokenResponse)
  }

  function FetchPrice(env: Env, reply: Reply<Option<PriceData>>): Result<PriceData, Failure> {
    match reply
    case Reverted => Failure(Trap)
    case Returned(None) => Failure(Panic(InvalidOracleResponse))
    case Returned(Some(data)) =>
      if data.price <= 0 || data.timestamp > env.timestamp
      then Failure(Panic(InvalidOracleResponse))
      else Success(data)
  }

  lemma {:induction false} Pow10Monotone(m: nat, n: nat)
    requires m <= n
    ensures Pow10(m) <= Pow10(n)
    decreases n - m
  {
    if m < n { Pow10Monotone(m, n - 1); }
  }

  lemma {:induction false} Pow10Sum(m: nat, n: nat)
    ensures Pow10(m + n) == Pow10(m) * Pow10(n)
    decreases n
  {
    if n > 0 {
      Pow10Sum(m, n - 1);
      assert Pow10(m + n) == 10 * (Pow10(m) * Pow10(n - 1)) == Pow10(m) * (10 * Pow10(n - 1));
    }
  }

  lemma {:induction false} Pow10Fits(n: nat)
    requires n <= MAX_ORACLE_DECIMALS
    ensures Pow10(n) <= I128_MAX
  {
    assert Pow10(5) == 100_000;
    Pow10Sum(5, 5);
    Pow10Sum(10, 10);
    Pow10Sum(10, 20);
    Pow10Monotone(n, 30);
  }

  /** Within both decimals bounds the power never overflows, so a divisor is refused exactly
      when the call reverts or reports too many decimals. */
  lemma {:induction false} DivisorIsPowerOfTen(reply: Reply<u32>, maxDecimals: nat, error: Error)
    requires maxDecimals <= MAX_ORACLE_DECIMALS
    ensures FetchDivisor(reply, maxDecimals, error)
         == match reply
            case Reverted => Failure(Trap)
            case Returned(n) => if n <= maxDecimals then Success(Pow10(n)) else Failure(Panic(error))
  {
    match reply
    case Reverted =>
    case Returned(n) =>
      if n <= maxDecimals {
        Pow10Fits(n);
      }
  }

  /** The oracle's divisor: `10^decimals` for at most 30 decimals. */
  lemma {:induction false} UsdDivisorExactly(reply: Reply<u32>)
    ensures FetchUsdDivisor(reply)
         == match reply
            case Reverted => Failure(Trap)
            case Returned(n) => if n <= 30 then Success(Pow10(n)) else Failure(Panic(InvalidOracleResponse))
  {
    DivisorIsPowerOfTen(reply, 30, InvalidOracleResponse);
  }

  /** A token's divisor: `10^decimals` for at most 20 decimals. */
  lemma {:induction false} TokenDivisorExactly(reply: Reply<u32>)
    ensures FetchTokenDivisor(reply)
         == match reply
            case Reverted => Failure(Trap)
            case Returned(n) => if n <= 20 then Success(Pow10(n)) else Failure(Panic(InvalidTokenResponse))
  {
    DivisorIsPowerOfTen(reply, 20, InvalidTokenResponse);
  }

  // ---------- Pricing one transfer ----------

  function FirstIndexOf(tokens: seq<Address>, t: Address): (i: Option<nat>)
    ensures i.Some? <==> t in tokens
    ensures i.Some? ==> i.value < |tokens| && tokens[i.value] == t && t !in tokens[..i.value]
  {
    if tokens == [] then None
    else if tokens[0] == t then Some(0)
    else
      match FirstIndexOf(tokens[1..], t)
      case None => None
      case Some(i) =>
        assert tokens[..i + 1] == [tokens[0]] + tokens[1..][..i];
        Some(i + 1)
  }

  function ParseTransfer(a: Attempt): Result<(Address, i128), Failure> {
    if !a.authorized then Failure(Trap) else
    match a.context
    case CreateContract => Failure(Panic(InvalidTransferArgs))
    case Contract(target, fnName, args) =>
      if fnName != "transfer" || |args| <= 2 || !args[2].I128? || args[2].i128 < 0
      then Failure(Panic(InvalidTransferArgs))
      else Success((target, args[2].i128))
  }

  /** `amount * price / usdDivisor / tokenDivisor`, or None on overflow. */
  function ConvertToUsd(amount: i128, price: i128, usdDivisor: i128, tokenDivisor: i128): Option<i128> {
    match CheckedMul(amount, price)
    case None => None
    case Some(product) =>
      match CheckedDiv(product, usdDivisor)
      case None => None
      case Some(quotient) => CheckedDiv(quotient, tokenDivisor)
  }

  predicate Stale(now: u64, timestamp: u64) {
    Monus(now, timestamp) > MAX_STALENESS_LEDGERS * LEDGER_CLOSE_TIME_SECS
  }

  function QuoteTransfer(d: PolicyData, a: Attempt): Result<Quote, Failure> {
    match ParseTransfer(a)
    case Failure(f) => Failure(f)
    case Success((target, amount)) =>
      var index := FirstIndexOf(d.allowedTokens, target);
      if index.None? || index.value >= |d.tokenDivisors| then Failure(Panic(TokenNotAllowed)) else
      var divisor := d.tokenDivisors[index.value];
      match FetchPrice(a.env, a.reply)
      case Failure(f) => Failure(f)
      case Success(data) =>
        if Stale(a.env.timestamp, data.timestamp) then Failure(Panic(StaleOraclePrice)) else
        match ConvertToUsd(amount, data.price, d.usdDivisor, divisor)
        case None => Failure(Panic(AmountConversionOverflow))
        case Some(usd) => Success(Quote(target, amount, data.price, divisor, usd))
  }

  // ---------- Admitting it against the window ----------

  /** How many entries at the front are expired, counting on from the first `i`. */
  function ExpiredCount(history: seq<SpendingEntry>, cutoff: nat, i: nat): (n: nat)
    requires i <= |history|
    ensures i <= n <= |history|
    decreases |history| - i
  {
    if i < |history| && history[i].ledger <= cutoff then ExpiredCount(history, cutoff, i + 1) else i
  }

  /** The running total of the first `n` entries, saturating at each step. */
  function SaturatingTotal(entries: seq<SpendingEntry>, n: nat): i128
    requires n <= |entries|
  {
    if n == 0 then 0 else SaturatingAdd(SaturatingTotal(entries, n - 1), entries[n - 1].amountUsd)
  }

  function Evict(d: PolicyData, current: u32): PolicyData {
    var n := ExpiredCount(d.spendingHistory, Monus(current, d.periodLedgers), 0);
    d.(spendingHistory := d.spendingHistory[n..],
       cachedTotalSpentUsd := SaturatingSub(d.cachedTotalSpentUsd, SaturatingTotal(d.spendingHistory, n)))
  }

  function Admit(d: PolicyData, usd: i128, current: u32): Result<PolicyData, Failure> {
    var e := Evict(d, current);
    if SaturatingAdd(e.cachedTotalSpentUsd, usd) > e.spendingLimitUsd then
      Failure(Panic(SpendingLimitExceeded))
    else if |e.spendingHistory| >= MAX_HISTORY_ENTRIES then
      Failure(Panic(HistoryCapacityExceeded))
    else
      Success(e.(spendingHistory := e.spendingHistory + [SpendingEntry(usd, current)],
                 cachedTotalSpentUsd := SaturatingAdd(e.cachedTotalSpentUsd, usd)))
  }

  /** The whole decision of `enforce` on an installed policy; a success carries the data written back. */
  function Decide(d: PolicyData, a: Attempt): Result<PolicyData, Failure> {
    match QuoteTransfer(d, a)
    case Failure(f) => Failure(f)
    case Success(q) => Admit(d, q.usd, a.env.sequence)
  }

  /** The outcome of `enforce` given the stored entry, if there is one. */
  function Verdict(entry: Option<PolicyData>, a: Attempt): Result<PolicyData, Failure> {
    if ParseTransfer(a).Failure? then Failure(ParseTransfer(a).error)
    else if entry.None? then Failure(Panic(NotInstalled))
    else Decide(entry.value, a)
  }

  // ---------- What `install` writes ----------

  ghost predicate PowerOfTen(x: int, maxExponent: nat) {
    exists n: nat :: n <= maxExponent && x == Pow10(n)
  }

  /** Divisors are positive and aligned with the allowed tokens. */
  ghost predicate Aligned(d: PolicyData) {
    && d.usdDivisor > 0 && |d.tokenDivisors| == |d.allowedTokens|
    && forall i :: 0 <= i < |d.tokenDivisors| ==> d.tokenDivisors[i] > 0
  }

  /** The data of a fresh installation. */
  ghost predicate Installed(d: PolicyData)
    ensures Installed(d) ==> Aligned(d)
  {
    && d.spendingLimitUsd > 0 && d.periodLedgers > 0 && d.allowedTokens != []
    && PowerOfTen(d.usdDivisor, MAX_ORACLE_DECIMALS)
    && |d.tokenDivisors| == |d.allowedTokens|
    && (forall i :: 0 <= i < |d.tokenDivisors| ==> PowerOfTen(d.tokenDivisors[i], MAX_TOKEN_DECIMALS))
    && d.spendingHistory == [] && d.cachedTotalSpentUsd == 0
  }

  /** A rejected call leaves the stored data as it was. */
  function Next(d: PolicyData, a: Attempt): PolicyData {
    match Decide(d, a)
    case Success(after) => after
    case Failure(_) => d
  }

  function DataAfter(d: PolicyData, run: seq<Attempt>): PolicyData {
    if run == [] then d else
    var last := |run| - 1;
    Next(DataAfter(d, run[..last]), run[last])
  }

  ghost predicate Reached(start: PolicyData, run: seq<Attempt>, d: PolicyData) {
    Installed(start) && d == DataAfter(start, run)
  }

  lemma {:induction false} DataAfterStep(d: PolicyData, run: seq<Attempt>, a: Attempt)
    ensures DataAfter(d, run + [a]) == Next(DataAfter(d, run), a)
  {
    assert (run + [a])[..|run|] == run;
  }

  // ---------- The contract ----------

  function Outcome(verdict: Result<PolicyData, Failure>): Result<(), Failure> {
    match verdict
    case Success(_) => Success(())
    case Failure(f) => Failure(f)
  }

  function Updated(storage: map<AccountContext, PolicyData>, k: AccountContext, verdict: Result<PolicyData, Failure>)
    : map<AccountContext, PolicyData>
  {
    match verdict
    case Success(d) => storage[k := d]
    case Failure(_) => storage
  }

  /** `cleanup_old_entries`: pops the expired front of the history and totals what it removed. */
  method CleanupOldEntries(history: seq<SpendingEntry>, currentLedger: u32, periodLedgers: u32)
    returns (rest: seq<SpendingEntry>, removedTotal: i128)
    ensures var n := ExpiredCount(history, Monus(currentLedger, periodLedgers), 0);
            rest == history[n..] && removedTotal == SaturatingTotal(history, n)
  {
    var cutoff := Monus(currentLedger, periodLedgers);
    rest, removedTotal := history, 0;
    ghost var n := 0;
    while rest != []
      invariant n <= |history| && rest == history[n..]
      invariant ExpiredCount(history, cutoff, n) == ExpiredCount(history, cutoff, 0)
      invariant removedTotal == SaturatingTotal(history, n)
      decreases |rest|
    {
      var entry := rest[0];
      if entry.ledger <= cutoff {
        removedTotal := SaturatingAdd(removedTotal, entry.amountUsd);
        rest := rest[1..];
        n := n + 1;
      } else {
        break;
      }
    }
  }

  /** A `decimals()` reply that can be used. */
  predicate GoodReply(reply: Reply<u32>, maxDecimals: nat) {
    reply.Returned? && reply.value <= maxDecimals
  }

  /** The failure of the first token reply that cannot be used. */
  ghost predicate FirstBadReply(replies: seq<Reply<u32>>, f: Failure) {
    exists i :: 0 <= i < |replies| && !GoodReply(replies[i], 20)
                && f == (if replies[i].Reverted? then Trap else Panic(InvalidTokenResponse))
                && forall j :: 0 <= j < i ==> GoodReply(replies[j], 20)
  }

  /** Queries the `decimals()` of each allowed token, failing on the first bad reply. */
  method FetchTokenDivisors(replies: seq<Reply<u32>>) returns (r: Result<seq<i128>, Failure>)
    ensures r.Success? <==> forall i :: 0 <= i < |replies| ==> GoodReply(replies[i], 20)
    ensures r.Success? ==>
              && |r.value| == |replies|
              && forall i :: 0 <= i < |replies| ==>
                   r.value[i] == Pow10(replies[i].value) && PowerOfTen(r.value[i], MAX_TOKEN_DECIMALS)
    ensures r.Failure? ==> FirstBadReply(replies, r.error)
  {
    var tokenDivisors: seq<i128> := [];
    var i := 0;
    while i < |replies|
      invariant i == |tokenDivisors| <= |replies|
      invariant forall j :: 0 <= j < i ==>
                  && GoodReply(replies[j], 20)
                  && tokenDivisors[j] == Pow10(replies[j].value) && PowerOfTen(tokenDivisors[j], MAX_TOKEN_DECIMALS)
    {
      var divisor := FetchTokenDivisor(replies[i]);
      TokenDivisorExactly(replies[i]);
      if divisor.Failure? { return Failure(divisor.error); }
      tokenDivisors := tokenDivisors + [divisor.value];
      i := i + 1;
    }
    r := Success(tokenDivisors);
  }

  /** `enforce` up to writing the data back: `data` is a loaded copy, updated step by step. */
  method EvaluateTransfer(stored: Option<PolicyData>, a: Attempt) returns (r: Result<PolicyData, Failure>)
    ensures r == Verdict(stored, a)
  {
    var transfer := ParseTransfer(a);
    if transfer.Failure? { return Failure(transfer.error); }
    var (target, amount) := transfer.value;

    if stored.None? { return Failure(Panic(NotInstalled)); }
    var data := stored.value;

    var tokenIndex := FirstIndexOf(data.allowedTokens, target);
    if tokenIndex.None? || tokenIndex.value >= |data.tokenDivisors| { return Failure(Panic(TokenNotAllowed)); }
    var tokenDivisor := data.tokenDivisors[tokenIndex.value];

    var priceData := FetchPrice(a.env, a.reply);
    if priceData.Failure? { return Failure(priceData.error); }
    if Stale(a.env.timestamp, priceData.value.timestamp) { return Failure(Panic(StaleOraclePrice)); }

    var amountUsd := ConvertToUsd(amount, priceData.value.price, data.usdDivisor, tokenDivisor);
    if amountUsd.None? { return Failure(Panic(AmountConversionOverflow)); }

    var history, removed := CleanupOldEntries(data.spendingHistory, a.env.sequence, data.periodLedgers);
    data := data.(spendingHistory := history);
    data := data.(cachedTotalSpentUsd := SaturatingSub(data.cachedTotalSpentUsd, removed));

    if SaturatingAdd(data.cachedTotalSpentUsd, amountUsd.value) > data.spendingLimitUsd {
      return Failure(Panic(SpendingLimitExceeded));
    }
    if |data.spendingHistory| >= MAX_HISTORY_ENTRIES { return Failure(Panic(HistoryCapacityExceeded)); }

    data := data.(spendingHistory := data.spendingHistory + [SpendingEntry(amountUsd.value, a.env.sequence)]);
    data := data.(cachedTotalSpentUsd := SaturatingAdd(data.cachedTotalSpentUsd, amountUsd.value));
    r := Success(data);
  }

  class MultiTokenSpendingLimitPolicy {
    var storage: map<AccountContext, PolicyData>
    ghost var installed: map<AccountContext, PolicyData>  // what the install in force wrote
    ghost var runs: map<AccountContext, seq<Attempt>>     // every `enforce` call made under it

    /** Every stored entry is what its run of calls makes of a fresh installation. */
    ghost predicate Valid()
      reads this
    {
      && (forall k :: k in storage <==> k in installed)
      && (forall k :: k in storage <==> k in runs)
      && forall k :: k in storage ==> Reached(installed[k], runs[k], storage[k])
    }

    function Entry(k: AccountContext): Option<PolicyData>
      reads this
    {
      if k in storage then Some(storage[k]) else None
    }

    constructor ()
      ensures Valid() && storage == map[]
    {
      storage, installed, runs := map[], map[], map[];
    }

    /** `tokenReplies` holds the answer to each `decimals()` call, in the order they are made. */
    method Install(params: InstallParams, rule: ContextRule, account: Address, authorized: bool,
                   oracleReply: Reply<u32>, tokenReplies: seq<Reply<u32>>)
      returns (r: Result<(), Failure>)
      requires Valid()
      requires |tokenReplies| == |params.allowedTokens|
      modifies this
      ensures Valid()
      ensures r.Success? <==>
              && authorized && rule.contextType.CallContract?
              && params.spendingLimitUsd > 0 && params.periodLedgers > 0 && params.allowedTokens != []
              && AccountContext(account, rule.id) !in old(storage)
              && GoodReply(oracleReply, 30)
              && (forall i :: 0 <= i < |tokenReplies| ==> GoodReply(tokenReplies[i], 20))
      ensures r.Failure? ==> storage == old(storage) && runs == old(runs) && installed == old(installed)
      ensures r.Failure? ==>
                if !authorized then r.error == Trap
                else if !rule.contextType.CallContract? then r.error == Panic(InvalidContextRule)
                else if params.spendingLimitUsd <= 0 || params.periodLedgers == 0 || params.allowedTokens == [] then
                  r.error == Panic(InvalidInstallParams)
                else if AccountContext(account, rule.id) in old(storage) then r.error == Panic(AlreadyInstalled)
                else if oracleReply.Reverted? then r.error == Trap
                else if oracleReply.value > 30 then r.error == Panic(InvalidOracleResponse)
                else FirstBadReply(tokenReplies, r.error)
      ensures r.Success? ==>
                var k := AccountContext(account, rule.id);
                && k in storage && storage == old(storage)[k := storage[k]]
                && runs == old(runs)[k := []]
                && installed == old(installed)[k := storage[k]]
                && storage[k].spendingLimitUsd == params.spendingLimitUsd
                && storage[k].periodLedgers == params.periodLedgers
                && storage[k].oracleAddress == params.oracleAddress
                && storage[k].allowedTokens == params.allowedTokens
                && storage[k].usdDivisor == Pow10(oracleReply.value)
                && |storage[k].tokenDivisors| == |tokenReplies|
                && (forall i :: 0 <= i < |tokenReplies| ==>
                      storage[k].tokenDivisors[i] == Pow10(tokenReplies[i].value))
                && storage[k].spendingHistory == [] && storage[k].cachedTotalSpentUsd == 0
    {
      if !authorized { return Failure(Trap); }
      if !rule.contextType.CallContract? { return Failure(Panic(InvalidContextRule)); }
      if params.spendingLimitUsd <= 0 || params.periodLedgers == 0 || params.allowedTokens == [] {
        return Failure(Panic(InvalidInstallParams));
      }
      var k := AccountContext(account, rule.id);
      if k in storage { return Failure(Panic(AlreadyInstalled)); }

      var usdDivisor := FetchUsdDivisor(oracleReply);
      UsdDivisorExactly(oracleReply);
      if usdDivisor.Failure? { return Failure(usdDivisor.error); }

      var tokenDivisors := FetchTokenDivisors(tokenReplies);
      if tokenDivisors.Failure? { return Failure(tokenDivisors.error); }

      var data := PolicyData(params.spendingLimitUsd, params.periodLedgers, params.oracleAddress,
                             usdDivisor.value, params.allowedTokens, tokenDivisors.value, [], 0);
      storage := storage[k := data];
      installed := installed[k := data];
      runs := runs[k := []];
      r := Success(());
    }

    method Uninstall(ruleId: u32, account: Address, authorized: bool) returns (r: Result<(), Failure>)
      requires Valid()
      modifies this
      ensures Valid()
      ensures r.Success? <==> authorized && AccountContext(account, ruleId) in old(storage)
      ensures r.Failure? ==> r.error == if authorized then Panic(NotInstalled) else Trap
      ensures storage == if r.Success? then old(storage) - {AccountContext(account, ruleId)} else old(storage)
      ensures runs == if r.Success? then old(runs) - {AccountContext(account, ruleId)} else old(runs)
      ensures installed == if r.Success? then old(installed) - {AccountContext(account, ruleId)} else old(installed)
    {
      if !authorized { return Failure(Trap); }
      var k := AccountContext(account, ruleId);
      if k !in storage { return Failure(Panic(NotInstalled)); }
      storage := storage - {k};
      installed := installed - {k};
      runs := runs - {k};
      r := Success(());
    }

    /** A rejected call leaves every entry as it was; an accepted one rewrites its own entry only. */
    method Enforce(a: Attempt, ruleId: u32, account: Address) returns (r: Result<(), Failure>)
      requires Valid()
      modifies this
      ensures Valid() && installed == old(installed)
      ensures var k := AccountContext(account, ruleId);
              && (match old(Verdict(Entry(k), a))
                  case Success(d) => r == Success(()) && storage == old(storage)[k := d]
                  case Failure(f) => r == Failure(f) && storage == old(storage))
              && runs == if k in old(storage) then old(runs)[k := old(runs)[k] + [a]] else old(runs)
    {
      var k := AccountContext(account, ruleId);
      var verdict := EvaluateTransfer(Entry(k), a);
      WriteBack(k, a, verdict);
      r := Outcome(verdict);
    }

    /** Stores the data of an accepted call, and logs the call under its installation. */
    method WriteBack(k: AccountContext, ghost a: Attempt, verdict: Result<PolicyData, Failure>)
      requires Valid()
      requires k in storage ==> Next(storage[k], a) == if verdict.Success? then verdict.value else storage[k]
      requires k !in storage ==> verdict.Failure?
      modifies this
      ensures Valid() && installed == old(installed)
      ensures storage == Updated(old(storage), k, verdict)
      ensures runs == if k in old(storage) then old(runs)[k := old(runs)[k] + [a]] else old(runs)
    {
      if k in storage {
        DataAfterStep(installed[k], runs[k], a);
        runs := runs[k := runs[k] + [a]];
      }
      if verdict.Success? { storage := storage[k := verdict.value]; }
    }
  }
}
