/** What the spending limit policy guarantees over whole runs of `enforce` calls. */
module SpendingRuns {
  import opened Arithmetic
  import opened HostTypes
  import opened SpendingLimit
  import opened SpendingWindow

  // ---------- Pricing ----------

  ghost function TokenDivisor(d: PolicyData, t: Address): (td: i128)
    requires Aligned(d) && t in d.allowedTokens
    ensures td > 0
  {
    d.tokenDivisors[FirstIndexOf(d.allowedTokens, t).value]
  }

  /** Raw units times oracle units per dollar of a token: `10^oracle_decimals * 10^token_decimals`. */
  ghost function Scale(d: PolicyData, t: Address): (s: int)
    requires Aligned(d) && t in d.allowedTokens
    ensures s > 0
  {
    MulMonotone(1, d.usdDivisor, TokenDivisor(d, t));
    d.usdDivisor * TokenDivisor(d, t)
  }

  /** An authorized, well-formed transfer of an allowed token with a fresh price. */
  ghost predicate Presentable(d: PolicyData, a: Attempt) {
    && a.authorized
    && a.context.Contract? && a.context.fnName == "transfer"
    && |a.context.args| > 2 && a.context.args[2].I128? && a.context.args[2].i128 >= 0
    && a.context.contract in d.allowedTokens
    && a.reply.Returned? && a.reply.value.Some?
    && var p := a.reply.value.value;
       && p.price > 0 && p.timestamp <= a.env.timestamp <= p.timestamp + 500
  }

  /** Presentable, and `amount * price` fits. */
  ghost predicate Priceable(d: PolicyData, a: Attempt) {
    Presentable(d, a) && a.context.args[2].i128 * a.reply.value.value.price <= I128_MAX
  }

  lemma {:induction false} ConversionExactly(amount: i128, price: i128, usdDivisor: i128, tokenDivisor: i128)
    requires amount >= 0 && price > 0 && usdDivisor > 0 && tokenDivisor > 0
    ensures usdDivisor * tokenDivisor > 0
    ensures ConvertToUsd(amount, price, usdDivisor, tokenDivisor)
         == if amount * price <= I128_MAX then Some((amount * price) / (usdDivisor * tokenDivisor)) else None
  {
    MulMonotone(0, amount, price);
    var product := amount * price;
    QuotientBounds(product, usdDivisor);
    QuotientBounds(product / usdDivisor, tokenDivisor);
    NestedFloor(product, usdDivisor, tokenDivisor);
    DividedTwice(product, usdDivisor, tokenDivisor);
  }

  lemma {:induction false} DividedTwice(product: nat, usdDivisor: i128, tokenDivisor: i128)
    requires usdDivisor > 0 && tokenDivisor > 0
    requires product / usdDivisor <= product && product / usdDivisor / tokenDivisor <= product / usdDivisor
    ensures product <= I128_MAX ==> CheckedDiv(product, usdDivisor) == Some(product / usdDivisor)
    ensures product <= I128_MAX ==>
              CheckedDiv(product / usdDivisor, tokenDivisor) == Some(product / usdDivisor / tokenDivisor)
  {
  }

  lemma {:induction false} QuoteConverts(d: PolicyData, a: Attempt)
    requires Aligned(d)
    ensures !Presentable(d, a) ==> QuoteTransfer(d, a).Failure?
    ensures Presentable(d, a) ==>
              var (t, amount, price) := (a.context.contract, a.context.args[2].i128, a.reply.value.value.price);
              QuoteTransfer(d, a)
              == match ConvertToUsd(amount, price, d.usdDivisor, TokenDivisor(d, t))
                 case None => Failure(Panic(AmountConversionOverflow))
                 case Some(usd) => Success(Quote(t, amount, price, TokenDivisor(d, t), usd))
  {
  }

  /** A call is priced exactly when it is Priceable, at the truncated dollar value of the transfer. */
  lemma {:induction false} QuoteExactly(d: PolicyData, a: Attempt)
    requires Aligned(d)
    ensures QuoteTransfer(d, a).Success? <==> Priceable(d, a)
    ensures Priceable(d, a) ==>
              var (t, amount, price) := (a.context.contract, a.context.args[2].i128, a.reply.value.value.price);
              && 0 <= (amount * price) / Scale(d, t) <= I128_MAX
              && QuoteTransfer(d, a)
                 == Success(Quote(t, amount, price, TokenDivisor(d, t), (amount * price) / Scale(d, t)))
  {
    QuoteConverts(d, a);
    if Presentable(d, a) {
      var (t, amount, price) := (a.context.contract, a.context.args[2].i128, a.reply.value.value.price);
      ConversionExactly(amount, price, d.usdDivisor, TokenDivisor(d, t));
      MulMonotone(0, amount, price);
      if Priceable(d, a) { QuotientBounds(amount * price, Scale(d, t)); }
    }
  }

  /** A call that asks for a transfer: `transfer(from, to, amount)` with a non-negative i128 as third argument. */
  predicate AsksTransfer(a: Attempt) {
    && a.context.Contract? && a.context.fnName == "transfer"
    && |a.context.args| > 2 && a.context.args[2].I128? && a.context.args[2].i128 >= 0
  }

  /** Which failure refuses to price a call: the first of these that applies. */
  lemma {:induction false} QuoteRefusesWith(d: PolicyData, a: Attempt)
    requires Aligned(d)
    ensures QuoteTransfer(d, a).Failure? ==>
              QuoteTransfer(d, a).error
              == if !a.authorized then Trap
                 else if !AsksTransfer(a) then Panic(InvalidTransferArgs)
                 else if a.context.contract !in d.allowedTokens then Panic(TokenNotAllowed)
                 else if a.reply.Reverted? then Trap
                 else if a.reply.value.None? || a.reply.value.value.price <= 0
                         || a.reply.value.value.timestamp > a.env.timestamp then Panic(InvalidOracleResponse)
                 else if a.env.timestamp > a.reply.value.value.timestamp + 500 then Panic(StaleOraclePrice)
                 else Panic(AmountConversionOverflow)
  {
    if Presentable(d, a) { QuoteConverts(d, a); }
  }

  /** Without an installation a call is refused before the oracle is asked, but after its own shape. */
  lemma {:induction false} UninstalledRefuses(a: Attempt)
    ensures Verdict(None, a) == Failure(if !a.authorized then Trap
                                        else if !AsksTransfer(a) then Panic(InvalidTransferArgs)
                                        else Panic(NotInstalled))
  {
  }

  /** With an installation the verdict is the decision on what is stored. */
  lemma {:induction false} InstalledDecides(d: PolicyData, a: Attempt)
    ensures Verdict(Some(d), a) == Decide(d, a)
  {
  }

  // ---------- The full-log policy ----------

  /** The check of a policy that keeps the whole log: count and sum what was accepted in the
      `period` ledgers up to now, with unbounded arithmetic. */
  function ReferenceCheck(start: PolicyData, log: seq<Accepted>, usd: int, current: u32): Result<(), Failure> {
    var window := Within(log, current - start.periodLedgers + 1, current + 1);
    if Total(window) + usd > start.spendingLimitUsd then Failure(Panic(SpendingLimitExceeded))
    else if |window| >= MAX_HISTORY_ENTRIES then Failure(Panic(HistoryCapacityExceeded))
    else Success(())
  }

  function Reference(start: PolicyData, log: seq<Accepted>, a: Attempt): Result<Accepted, Failure> {
    match QuoteTransfer(start, a)
    case Failure(f) => Failure(f)
    case Success(q) =>
      match ReferenceCheck(start, log, q.usd, a.env.sequence)
      case Failure(f) => Failure(f)
      case Success(_) => Success(Accepted(q, a.env.sequence))
  }

  function ReferenceLog(start: PolicyData, run: seq<Attempt>): seq<Accepted> {
    if run == [] then [] else
    ReferenceNext(start, ReferenceLog(start, run[..|run| - 1]), run[|run| - 1])
  }

  function ReferenceNext(start: PolicyData, log: seq<Accepted>, a: Attempt): seq<Accepted> {
    match Reference(start, log, a)
    case Success(e) => log + [e]
    case Failure(_) => log
  }

  /** What the policy itself accepted over a run. */
  function LogAfter(start: PolicyData, run: seq<Attempt>): seq<Accepted> {
    if run == [] then [] else
    var last := |run| - 1;
    LogNext(DataAfter(start, run[..last]), LogAfter(start, run[..last]), run[last])
  }

  function LogNext(d: PolicyData, log: seq<Accepted>, a: Attempt): seq<Accepted> {
    if Decide(d, a).Success? then log + [Accepted(QuoteTransfer(d, a).value, a.env.sequence)] else log
  }

  lemma {:induction false} LogAfterStep(start: PolicyData, run: seq<Attempt>, a: Attempt)
    ensures LogAfter(start, run + [a]) == LogNext(DataAfter(start, run), LogAfter(start, run), a)
  {
    assert (run + [a])[..|run|] == run;
  }

  /** Ledgers never go back, and none is before `first`. */
  ghost predicate Chronological(run: seq<Attempt>, first: u32) {
    && (forall i :: 0 <= i < |run| ==> first <= run[i].env.sequence)
    && forall i, j :: 0 <= i < j < |run| ==> run[i].env.sequence <= run[j].env.sequence
  }

  // ---------- The state invariant ----------

  /** What makes the saturating cap test exact: the limit leaves room above it, or no thousand
      transfers of any allowed token can pass it. */
  ghost predicate CapIsExact(d: PolicyData)
    requires Aligned(d)
  {
    d.spendingLimitUsd < I128_MAX || forall t :: t in d.allowedTokens ==> Scale(d, t) >= MAX_HISTORY_ENTRIES
  }

  function Newest(log: seq<Accepted>): u32 {
    if log == [] then 0 else log[|log| - 1].ledger
  }

  /** The transfers the stored history should hold: those in the window of the newest one. */
  function Kept(start: PolicyData, log: seq<Accepted>): seq<Accepted> {
    Within(log, Newest(log) - start.periodLedgers + 1, END)
  }

  ghost predicate InterpretedBy(start: PolicyData, d: PolicyData, kept: seq<Accepted>) {
    && 0 <= Total(kept) <= start.spendingLimitUsd && |kept| <= MAX_HISTORY_ENTRIES
    && d == start.(spendingHistory := Entries(kept), cachedTotalSpentUsd := Total(kept))
  }

  ghost predicate FromTerms(start: PolicyData, e: Accepted)
    requires Aligned(start)
  {
    && e.quote.token in start.allowedTokens && e.quote.tokenDivisor == TokenDivisor(start, e.quote.token)
    && 0 <= e.quote.amount * e.quote.price <= I128_MAX
    && e.quote.usd == (e.quote.amount * e.quote.price) / Scale(start, e.quote.token)
  }

  /** Small enough that a thousand of them cannot pass a limit of `I128_MAX`. */
  predicate Small(start: PolicyData, e: Accepted) {
    start.spendingLimitUsd < I128_MAX || e.quote.usd <= I128_MAX / MAX_HISTORY_ENTRIES
  }

  ghost predicate LogOk(start: PolicyData, log: seq<Accepted>) {
    && Ordered(log) && NonNegative(log)
    && (forall i :: 0 <= i < |log| ==> log[i].ledger >= 1)
    && forall i :: 0 <= i < |log| ==> Small(start, log[i])
  }

  lemma {:induction false} TotalAtMost(log: seq<Accepted>, each: nat)
    requires forall i :: 0 <= i < |log| ==> log[i].quote.usd <= each
    ensures Total(log) <= |log| * each
  {
    if log != [] {
      Peel(log, 0, 0);
      TotalAtMost(log[..|log| - 1], each);
    }
  }

  /** A transfer of a token of scale 1000 or more is worth at most a thousandth of the i128 range. */
  lemma {:induction false} FromTermsIsSmall(start: PolicyData, e: Accepted)
    requires Aligned(start) && CapIsExact(start) && FromTerms(start, e)
    ensures Small(start, e)
  {
    var product, scale := e.quote.amount * e.quote.price, Scale(start, e.quote.token);
    QuotientBounds(product, scale);
    if scale >= 1000 {
      if product / scale > 0 { MulMonotone(1000, scale, product / scale); }
    }
  }

  lemma {:induction false} WithinLogOk(start: PolicyData, log: seq<Accepted>, lo: int, hi: int)
    requires LogOk(start, log)
    ensures LogOk(start, Within(log, lo, hi))
  {
    var w := Within(log, lo, hi);
    WithinOrdered(log, lo, hi);
    WithinNonNegative(log, lo, hi);
    forall i | 0 <= i < |w| ensures w[i] in log {
      WithinMember(log, lo, hi, w[i]);
    }
  }

  /** The window the check looks at, seen from the log and from the evicted history. */
  lemma {:induction false} LiveWindow(start: PolicyData, d: PolicyData, log: seq<Accepted>, c: u32)
    requires LogOk(start, log) && InterpretedBy(start, d, Kept(start, log))
    requires Newest(log) <= c
    ensures var live := Within(log, c - start.periodLedgers + 1, END);
            && live == Within(log, c - start.periodLedgers + 1, c + 1)
            && 0 <= Total(live) <= I128_MAX
            && Evict(d, c) == start.(spendingHistory := Entries(live), cachedTotalSpentUsd := Total(live))
  {
    var lo := Newest(log) - start.periodLedgers + 1;
    WithinLogOk(start, log, lo, END);
    EvictIsWindow(d, Kept(start, log), c);
    WithinTwice(log, lo, c - start.periodLedgers + 1, END);
    WithinAnyEnd(log, c - start.periodLedgers + 1, END, c + 1);
  }

  lemma {:induction false} AdmitOnWindow(start: PolicyData, d: PolicyData, live: seq<Accepted>, e: Accepted)
    requires 0 <= Total(live) <= I128_MAX
    requires Evict(d, e.ledger) == start.(spendingHistory := Entries(live), cachedTotalSpentUsd := Total(live))
    ensures var sum := SaturatingAdd(Total(live), e.quote.usd);
            Admit(d, e.quote.usd, e.ledger)
            == if sum > start.spendingLimitUsd then Failure(Panic(SpendingLimitExceeded))
               else if |live| >= MAX_HISTORY_ENTRIES then Failure(Panic(HistoryCapacityExceeded))
               else Success(start.(spendingHistory := Entries(live + [e]), cachedTotalSpentUsd := sum))
  {
    assert Entries(live) + [SpendingEntry(e.quote.usd, e.ledger)] == Entries(live + [e]);
  }

  lemma {:induction false} LogOkPush(start: PolicyData, log: seq<Accepted>, e: Accepted)
    requires LogOk(start, log)
    requires 1 <= e.ledger && Newest(log) <= e.ledger && e.quote.usd >= 0 && Small(start, e)
    ensures LogOk(start, log + [e])
  {
    assert forall i :: 0 <= i < |log| ==> log[i].ledger <= Newest(log);
  }

  /** The saturating test and the exact one agree on anything that could still be appended. */
  lemma {:induction false} CapTestExact(start: PolicyData, live: seq<Accepted>, e: Accepted)
    requires LogOk(start, live) && 0 <= Total(live) <= I128_MAX
    requires e.quote.usd >= 0 && Small(start, e)
    requires start.spendingLimitUsd < I128_MAX || |live| < MAX_HISTORY_ENTRIES
    ensures SaturatingAdd(Total(live), e.quote.usd) > start.spendingLimitUsd
       <==> Total(live) + e.quote.usd > start.spendingLimitUsd
    ensures Total(live) + e.quote.usd <= start.spendingLimitUsd ==>
              SaturatingAdd(Total(live), e.quote.usd) == Total(live) + e.quote.usd
  {
    if start.spendingLimitUsd == I128_MAX {
      TotalAtMost(live, I128_MAX / 1000);
      MulMonotone(|live|, 999, I128_MAX / 1000);
    }
  }

  /** The check of a policy that knows the live window, with unbounded arithmetic. */
  ghost function AdmitExact(start: PolicyData, live: seq<Accepted>, e: Accepted): Result<PolicyData, Failure>
    requires 0 <= Total(live) && e.quote.usd >= 0
  {
    if Total(live) + e.quote.usd > start.spendingLimitUsd then Failure(Panic(SpendingLimitExceeded))
    else if |live| >= MAX_HISTORY_ENTRIES then Failure(Panic(HistoryCapacityExceeded))
    else Success(start.(spendingHistory := Entries(live + [e]),
                        cachedTotalSpentUsd := Total(live) + e.quote.usd))
  }

  /** The error the policy gives where the full-log policy gives `f`: no saturated sum is above a limit of
      `I128_MAX`, so there the capacity check is the one that refuses. */
  function ErrorGiven(start: PolicyData, f: Failure): Failure {
    if start.spendingLimitUsd == I128_MAX && f == Panic(SpendingLimitExceeded)
    then Panic(HistoryCapacityExceeded)
    else f
  }

  lemma {:induction false} AdmitExactly(start: PolicyData, d: PolicyData, live: seq<Accepted>, e: Accepted)
    requires LogOk(start, live) && 0 <= Total(live) <= I128_MAX
    requires Evict(d, e.ledger) == start.(spendingHistory := Entries(live), cachedTotalSpentUsd := Total(live))
    requires e.quote.usd >= 0 && Small(start, e)
    ensures var (r, exact) := (Admit(d, e.quote.usd, e.ledger), AdmitExact(start, live, e));
            && (r.Success? ==> r == exact)
            && (r.Failure? ==> exact.Failure? && r.error == ErrorGiven(start, exact.error))
  {
    AdmitOnWindow(start, d, live, e);
    if start.spendingLimitUsd < I128_MAX || |live| < MAX_HISTORY_ENTRIES { CapTestExact(start, live, e); }
  }

  lemma {:induction false} KeptPush(start: PolicyData, log: seq<Accepted>, e: Accepted)
    requires start.periodLedgers > 0
    ensures Kept(start, log + [e]) == Within(log, e.ledger - start.periodLedgers + 1, END) + [e]
  {
    WithinPush(log, e, e.ledger - start.periodLedgers + 1, END);
  }

  /** One call: the cached check and the full-log check accept the same transfers. */
  lemma {:induction false} AdmitAgrees(start: PolicyData, d: PolicyData, log: seq<Accepted>, e: Accepted)
    requires start.periodLedgers > 0
    requires LogOk(start, log) && InterpretedBy(start, d, Kept(start, log))
    requires 1 <= e.ledger && Newest(log) <= e.ledger && e.quote.usd >= 0 && Small(start, e)
    ensures var (r, reference) := (Admit(d, e.quote.usd, e.ledger), ReferenceCheck(start, log, e.quote.usd, e.ledger));
            && (r.Success? <==> reference.Success?)
            && (r.Failure? ==> r.error == ErrorGiven(start, reference.error))
            && (r.Success? ==> InterpretedBy(start, r.value, Kept(start, log + [e])))
  {
    var live := Within(log, e.ledger - start.periodLedgers + 1, END);
    LiveWindow(start, d, log, e.ledger);
    WithinLogOk(start, log, e.ledger - start.periodLedgers + 1, END);
    AdmitExactly(start, d, live, e);
    var exact := AdmitExact(start, live, e);
    assert exact.Success? <==> ReferenceCheck(start, log, e.quote.usd, e.ledger).Success?;
    if exact.Success? {
      KeptPush(start, log, e);
      TotalPush(live, e);
      assert InterpretedBy(start, exact.value, live + [e]);
    }
  }

  // ---------- Whole runs ----------

  ghost predicate Sound(start: PolicyData, d: PolicyData, log: seq<Accepted>, now: u32) {
    LogOk(start, log) && InterpretedBy(start, d, Kept(start, log)) && Newest(log) <= now
  }

  lemma {:induction false} QuotedEntry(start: PolicyData, a: Attempt)
    requires Aligned(start) && CapIsExact(start) && QuoteTransfer(start, a).Success?
    ensures var e := Accepted(QuoteTransfer(start, a).value, a.env.sequence);
            e.quote.usd >= 0 && FromTerms(start, e) && Small(start, e)
  {
    QuoteExactly(start, a);
    MulMonotone(0, a.context.args[2].i128, a.reply.value.value.price);
    FromTermsIsSmall(start, Accepted(QuoteTransfer(start, a).value, a.env.sequence));
  }

  /** Pricing looks at the terms of the installation only. */
  lemma {:induction false} SameQuote(start: PolicyData, d: PolicyData, a: Attempt, kept: seq<Accepted>)
    requires InterpretedBy(start, d, kept)
    ensures QuoteTransfer(d, a) == QuoteTransfer(start, a)
  {
  }

  lemma {:induction false} Step(start: PolicyData, d: PolicyData, log: seq<Accepted>, a: Attempt, now: u32)
    requires Aligned(start) && CapIsExact(start) && start.periodLedgers > 0
    requires Sound(start, d, log, now) && 1 <= a.env.sequence && now <= a.env.sequence
    ensures Sound(start, Next(d, a), LogNext(d, log, a), a.env.sequence)
    ensures LogNext(d, log, a) == ReferenceNext(start, log, a)
    ensures var (r, reference) := (Decide(d, a), Reference(start, log, a));
            && (r.Success? <==> reference.Success?)
            && (r.Failure? ==> r.error == ErrorGiven(start, reference.error))
  {
    SameQuote(start, d, a, Kept(start, log));
    if QuoteTransfer(start, a).Success? {
      QuotedEntry(start, a);
      var e := Accepted(QuoteTransfer(start, a).value, a.env.sequence);
      AdmitAgrees(start, d, log, e);
      LogOkPush(start, log, e);
    }
  }

  function Clock(run: seq<Attempt>): u32 {
    if run == [] then 0 else run[|run| - 1].env.sequence
  }

  /** State invariant of every reachable state: the stored history is exactly the log cut to the
      window of the newest transfer, the cached total is its sum, within the limit. */
  lemma {:induction false} EveryRunIsSound(start: PolicyData, run: seq<Attempt>)
    requires Installed(start) && CapIsExact(start) && Chronological(run, 1)
    ensures Sound(start, DataAfter(start, run), LogAfter(start, run), Clock(run))
  {
    if run != [] {
      var n := |run| - 1;
      EveryRunIsSound(start, run[..n]);
      Step(start, DataAfter(start, run[..n]), LogAfter(start, run[..n]), run[n], Clock(run[..n]));
    }
  }

  /** The part of Step that an induction over runs needs. */
  lemma {:induction false} StepLog(start: PolicyData, d: PolicyData, log: seq<Accepted>, a: Attempt, now: u32)
    requires Aligned(start) && CapIsExact(start) && start.periodLedgers > 0
    requires Sound(start, d, log, now) && 1 <= a.env.sequence && now <= a.env.sequence
    ensures LogNext(d, log, a) == ReferenceNext(start, log, a)
  {
    Step(start, d, log, a, now);
  }

  lemma {:induction false} SameLog(start: PolicyData, run: seq<Attempt>)
    requires Installed(start) && CapIsExact(start) && Chronological(run, 1)
    ensures LogAfter(start, run) == ReferenceLog(start, run)
  {
    if run != [] {
      var before, a := run[..|run| - 1], run[|run| - 1];
      SameLog(start, before);
      EveryRunIsSound(start, before);
      StepLog(start, DataAfter(start, before), LogAfter(start, before), a, Clock(before));
    }
  }

  /** The policy in state `d` decides the call as the full-log policy with log `log` does: it accepts
      the same calls, gives the corresponding error, and stores after an accept exactly the stretch of
      the new log that ends now. */
  ghost predicate DecidesAs(start: PolicyData, d: PolicyData, log: seq<Accepted>, a: Attempt) {
    match Reference(start, log, a)
    case Failure(f) => Decide(d, a) == Failure(ErrorGiven(start, f))
    case Success(e) =>
      && Decide(d, a).Success?
      && Decide(d, a).value.spendingHistory == Entries(Stretch(start, log + [e], a.env.sequence + 1))
      && Decide(d, a).value.cachedTotalSpentUsd == Total(Stretch(start, log + [e], a.env.sequence + 1))
  }

  lemma {:induction false} StepDecidesAs(start: PolicyData, d: PolicyData, log: seq<Accepted>, a: Attempt, now: u32)
    requires Aligned(start) && CapIsExact(start) && start.periodLedgers > 0
    requires Sound(start, d, log, now) && 1 <= a.env.sequence && now <= a.env.sequence
    ensures DecidesAs(start, d, log, a)
  {
    Step(start, d, log, a, now);
    if Decide(d, a).Success? { AcceptStoresStretch(start, d, log, a, now); }
  }

  lemma {:induction false} AcceptStoresStretch(start: PolicyData, d: PolicyData, log: seq<Accepted>, a: Attempt,
                                              now: u32)
    requires Aligned(start) && CapIsExact(start) && start.periodLedgers > 0
    requires Sound(start, d, log, now) && 1 <= a.env.sequence && now <= a.env.sequence
    requires Decide(d, a).Success?
    ensures var window := Stretch(start, ReferenceNext(start, log, a), a.env.sequence + 1);
            && Next(d, a).spendingHistory == Entries(window)
            && Next(d, a).cachedTotalSpentUsd == Total(window)
  {
    Step(start, d, log, a, now);
    var after, newLog := Next(d, a), LogNext(d, log, a);
    assert newLog != [] && Newest(newLog) == a.env.sequence;
    NewestStretch(start, after, newLog, a.env.sequence);
  }

  /** Refinement: at every point of every run the evicting, caching policy and the policy that keeps
      the whole log have accepted the same transfers and decide the next call alike. */
  lemma {:induction false} RefinesFullLog(start: PolicyData, run: seq<Attempt>, a: Attempt)
    requires Installed(start) && CapIsExact(start)
    requires Chronological(run, 1) && Clock(run) <= a.env.sequence && 1 <= a.env.sequence
    ensures LogAfter(start, run) == ReferenceLog(start, run)
    ensures DecidesAs(start, DataAfter(start, run), ReferenceLog(start, run), a)
  {
    SameLog(start, run);
    EveryRunIsSound(start, run);
    StepDecidesAs(start, DataAfter(start, run), LogAfter(start, run), a, Clock(run));
  }

  lemma {:induction false} NewestStretch(start: PolicyData, d: PolicyData, log: seq<Accepted>, now: u32)
    requires log != [] && Newest(log) == now && Sound(start, d, log, now)
    ensures d.spendingHistory == Entries(Stretch(start, log, now + 1))
    ensures d.cachedTotalSpentUsd == Total(Stretch(start, log, now + 1))
  {
    WithinAnyEnd(log, now - start.periodLedgers + 1, END, now + 1);
  }

  // ---------- Safety of every window ----------

  /** What was accepted in the stretch of `period` consecutive ledgers before `end`. */
  function Stretch(start: PolicyData, log: seq<Accepted>, end: int): seq<Accepted> {
    Within(log, end - start.periodLedgers, end)
  }

  /** Every stretch of `period` ledgers holds transfers worth at most the limit. */
  ghost predicate WithinLimit(start: PolicyData, log: seq<Accepted>) {
    forall end: int :: Total(Stretch(start, log, end)) <= start.spendingLimitUsd
  }

  /** Every stretch of a run that ends before the newest transfer was already a stretch before it. */
  lemma {:induction false} StretchPush(start: PolicyData, log: seq<Accepted>, e: Accepted, end: int)
    requires end <= e.ledger
    ensures Stretch(start, log + [e], end) == Stretch(start, log, end)
  {
    WithinPush(log, e, end - start.periodLedgers, end);
  }

  /** A stretch that reaches past the newest transfer lies inside what the policy still keeps. */
  lemma {:induction false} SoundStretch(start: PolicyData, d: PolicyData, log: seq<Accepted>, now: u32, end: int)
    requires Sound(start, d, log, now) && Newest(log) < end
    ensures Total(Stretch(start, log, end)) <= start.spendingLimitUsd
    ensures |Stretch(start, log, end)| <= MAX_HISTORY_ENTRIES
  {
    var lo := Newest(log) - start.periodLedgers + 1;
    StretchInTail(log, lo, end - start.periodLedgers, end);
    assert Kept(start, log) == Within(log, lo, END);
  }

  lemma {:induction false} WindowSafetyAt(start: PolicyData, run: seq<Attempt>, end: int)
    requires Installed(start) && CapIsExact(start) && Chronological(run, 1)
    ensures Total(Stretch(start, LogAfter(start, run), end)) <= start.spendingLimitUsd
    ensures |Stretch(start, LogAfter(start, run), end)| <= MAX_HISTORY_ENTRIES
  {
    if run != [] {
      var n := |run| - 1;
      var log := LogAfter(start, run);
      EveryRunIsSound(start, run);
      WindowSafetyAt(start, run[..n], end);
      if log != [] && Newest(log) < end {
        SoundStretch(start, DataAfter(start, run), log, Clock(run), end);
      } else if Decide(DataAfter(start, run[..n]), run[n]).Success? {
        StretchPush(start, LogAfter(start, run[..n]), log[|log| - 1], end);
      }
    }
  }
}
