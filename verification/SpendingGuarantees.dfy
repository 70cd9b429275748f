/** The promises of the spending limit policy: what it accepts, what every window holds, what that is
    worth before truncation, and exactly which installations keep the limit on every run. */
module SpendingGuarantees {
  import opened Arithmetic
  import opened HostTypes
  import opened SpendingLimit
  import opened SpendingWindow
  import opened SpendingRuns

  // ---------- What is accepted ----------

  lemma {:induction false} TermsKept(start: PolicyData, run: seq<Attempt>)
    ensures var d := DataAfter(start, run);
            d == start.(spendingHistory := d.spendingHistory, cachedTotalSpentUsd := d.cachedTotalSpentUsd)
  {
    if run != [] { TermsKept(start, run[..|run| - 1]); }
  }

  lemma {:induction false} QuoteUnderTerms(start: PolicyData, run: seq<Attempt>, a: Attempt)
    ensures QuoteTransfer(DataAfter(start, run), a) == QuoteTransfer(start, a)
  {
    TermsKept(start, run);
  }

  /** Acceptance, both ways: a call goes through exactly when it is priceable, its value fits beside
      what the last `period` ledgers accepted, and fewer than 1000 transfers were accepted there. */
  lemma {:induction false} AcceptsExactly(start: PolicyData, run: seq<Attempt>, a: Attempt)
    requires Installed(start) && CapIsExact(start)
    requires Chronological(run, 1) && Clock(run) <= a.env.sequence && 1 <= a.env.sequence
    ensures var recent := Stretch(start, LogAfter(start, run), a.env.sequence + 1);
            Decide(DataAfter(start, run), a).Success?
            <==> Priceable(start, a)
                 && Total(recent) + DollarValue(start, a) <= start.spendingLimitUsd
                 && |recent| < 1000
  {
    RefinesFullLog(start, run, a);
    QuoteExactly(start, a);
  }

  /** The error of the full-log policy, and the one given for it. */
  lemma {:induction false} ReferenceRefuses(start: PolicyData, log: seq<Accepted>, a: Attempt)
    requires Aligned(start) && Reference(start, log, a).Failure?
    ensures var (recent, f) := (Stretch(start, log, a.env.sequence + 1), Reference(start, log, a).error);
            if !Priceable(start, a) then QuoteTransfer(start, a) == Failure(f) && f != Panic(SpendingLimitExceeded)
            else if Total(recent) + DollarValue(start, a) > start.spendingLimitUsd
            then f == Panic(SpendingLimitExceeded)
            else |recent| >= 1000 && f == Panic(HistoryCapacityExceeded)
  {
    QuoteExactly(start, a);
    QuoteRefusesWith(start, a);
  }

  /** Which error refuses a priceable transfer: the limit before the capacity, except that at a limit of `I128_MAX`
      only the capacity refuses. What refuses other calls is QuoteRefusesWith. */
  lemma {:induction false} RefusesWith(start: PolicyData, run: seq<Attempt>, a: Attempt)
    requires Installed(start) && CapIsExact(start)
    requires Chronological(run, 1) && Clock(run) <= a.env.sequence && 1 <= a.env.sequence
    requires Decide(DataAfter(start, run), a).Failure?
    ensures RefusedAs(start, Stretch(start, LogAfter(start, run), a.env.sequence + 1), a,
                      Decide(DataAfter(start, run), a).error)
  {
    RefinesFullLog(start, run, a);
    RefusedByReference(start, DataAfter(start, run), LogAfter(start, run), a);
  }

  ghost predicate RefusedAs(start: PolicyData, recent: seq<Accepted>, a: Attempt, f: Failure)
    requires Aligned(start)
  {
    if !Priceable(start, a) then QuoteTransfer(start, a) == Failure(f)
    else if start.spendingLimitUsd < I128_MAX && Total(recent) + DollarValue(start, a) > start.spendingLimitUsd
    then f == Panic(SpendingLimitExceeded)
    else f == Panic(HistoryCapacityExceeded)
  }

  lemma {:induction false} RefusedByReference(start: PolicyData, d: PolicyData, log: seq<Accepted>, a: Attempt)
    requires Aligned(start) && DecidesAs(start, d, log, a) && Decide(d, a).Failure?
    ensures RefusedAs(start, Stretch(start, log, a.env.sequence + 1), a, Decide(d, a).error)
  {
    ReferenceRefuses(start, log, a);
    assert Decide(d, a) == Failure(ErrorGiven(start, Reference(start, log, a).error));
  }

  /** The truncated dollar value of a priceable transfer. */
  ghost function DollarValue(start: PolicyData, a: Attempt): int
    requires Aligned(start) && Priceable(start, a)
  {
    (a.context.args[2].i128 * a.reply.value.value.price) / Scale(start, a.context.contract)
  }

  /** If nothing was accepted in the last `period` ledgers, any priceable transfer up to the limit is. */
  lemma {:induction false} QuietWindowAccepts(start: PolicyData, run: seq<Attempt>, a: Attempt)
    requires Installed(start) && CapIsExact(start)
    requires Chronological(run, 1) && Clock(run) <= a.env.sequence && 1 <= a.env.sequence
    requires forall i :: 0 <= i < |LogAfter(start, run)| ==>
               LogAfter(start, run)[i].ledger + start.periodLedgers <= a.env.sequence
    requires Priceable(start, a) && DollarValue(start, a) <= start.spendingLimitUsd
    ensures Decide(DataAfter(start, run), a).Success?
  {
    AcceptsExactly(start, run, a);
    var log := LogAfter(start, run);
    var recent := Stretch(start, log, a.env.sequence + 1);
    if recent != [] {
      WithinMember(log, a.env.sequence + 1 - start.periodLedgers, a.env.sequence + 1, recent[0]);
    }
  }

  function WithAmount(a: Attempt, amount: i128): Attempt
    requires a.context.Contract? && |a.context.args| > 2
  {
    a.(context := a.context.(args := a.context.args[2 := I128(amount)]))
  }

  lemma {:induction false} AdmitIsMonotone(d: PolicyData, usd: i128, less: i128, current: u32)
    requires less <= usd && Admit(d, usd, current).Success?
    ensures Admit(d, less, current).Success?
  {
  }

  /** Acceptance is downward closed, in any state with positive divisors. */
  lemma {:induction false} SmallerTransferAccepted(d: PolicyData, a: Attempt, amount: i128)
    requires Aligned(d) && Decide(d, a).Success?
    requires a.context.Contract? && |a.context.args| > 2 && a.context.args[2].I128?
    requires 0 <= amount <= a.context.args[2].i128
    ensures Decide(d, WithAmount(a, amount)).Success?
  {
    QuoteExactly(d, a);
    QuoteExactly(d, WithAmount(a, amount));
    var price := a.reply.value.value.price;
    MulMonotone(0, amount, price);
    MulMonotone(amount, a.context.args[2].i128, price);
    QuotientMonotone(amount * price, a.context.args[2].i128 * price, Scale(d, a.context.contract));
    AdmitIsMonotone(d, QuoteTransfer(d, a).value.usd, QuoteTransfer(d, WithAmount(a, amount)).value.usd,
                    a.env.sequence);
  }

  // ---------- Nothing saturates ----------

  function Sum(entries: seq<SpendingEntry>, n: nat): int
    requires n <= |entries|
  {
    if n == 0 then 0 else Sum(entries, n - 1) + entries[n - 1].amountUsd
  }

  lemma {:induction false} SumIsTotal(log: seq<Accepted>, n: nat)
    requires n <= |log|
    ensures Sum(Entries(log), n) == Total(log[..n])
  {
    if n > 0 {
      SumIsTotal(log, n - 1);
      assert log[..n] == log[..n - 1] + [log[n - 1]];
      TotalPush(log[..n - 1], log[n - 1]);
    }
  }

  /** In every reachable state the history is ordered with non-negative amounts, holds at most 1000
      of them, the cached total is their plain sum and within the limit, and the divisors are the
      installed ones: powers of ten, one for the oracle and one for each allowed token. */
  lemma {:induction false} StateInvariant(start: PolicyData, run: seq<Attempt>)
    requires Installed(start) && CapIsExact(start) && Chronological(run, 1)
    ensures var d := DataAfter(start, run);
            && (forall i, j :: 0 <= i < j < |d.spendingHistory| ==>
                  d.spendingHistory[i].ledger <= d.spendingHistory[j].ledger)
            && (forall i :: 0 <= i < |d.spendingHistory| ==> d.spendingHistory[i].amountUsd >= 0)
            && |d.spendingHistory| <= 1000
            && d.cachedTotalSpentUsd == Sum(d.spendingHistory, |d.spendingHistory|)
            && 0 <= d.cachedTotalSpentUsd <= d.spendingLimitUsd
            && (d.usdDivisor, d.allowedTokens, d.tokenDivisors)
               == (start.usdDivisor, start.allowedTokens, start.tokenDivisors)
            && PowerOfTen(d.usdDivisor, 30) && |d.tokenDivisors| == |d.allowedTokens|
            && (forall i :: 0 <= i < |d.tokenDivisors| ==> PowerOfTen(d.tokenDivisors[i], 20))
  {
    EveryRunIsSound(start, run);
    TermsKept(start, run);
    var log := LogAfter(start, run);
    WithinLogOk(start, log, Newest(log) - start.periodLedgers + 1, END);
    var kept := Kept(start, log);
    SumIsTotal(kept, |kept|);
    assert kept[..|kept|] == kept;
    var history := Entries(kept);
    assert forall i :: 0 <= i < |kept| ==> history[i].ledger == kept[i].ledger;
    assert forall i :: 0 <= i < |kept| ==> history[i].amountUsd == kept[i].quote.usd;
  }

  /** However much of a reachable history is evicted, the saturating eviction total is the plain
      sum, and subtracting it from the cached total leaves what is not evicted. */
  lemma {:induction false} EvictionNeverSaturates(start: PolicyData, run: seq<Attempt>, evicted: nat)
    requires Installed(start) && CapIsExact(start) && Chronological(run, 1)
    requires evicted <= |DataAfter(start, run).spendingHistory|
    ensures var d := DataAfter(start, run);
            && SaturatingTotal(d.spendingHistory, evicted) == Sum(d.spendingHistory, evicted)
            && 0 <= Sum(d.spendingHistory, evicted) <= d.cachedTotalSpentUsd
  {
    EveryRunIsSound(start, run);
    var log := LogAfter(start, run);
    WithinNonNegative(log, Newest(log) - start.periodLedgers + 1, END);
    SumIsTotal(Kept(start, log), evicted);
    SaturatingTotalIsTotal(Kept(start, log), evicted);
  }

  // ---------- What a window is worth before truncation ----------

  ghost predicate Priced(start: PolicyData, log: seq<Accepted>)
    requires Aligned(start)
  {
    forall i :: 0 <= i < |log| ==> FromTerms(start, log[i])
  }

  lemma {:induction false} EveryLogIsPriced(start: PolicyData, run: seq<Attempt>)
    requires Aligned(start)
    ensures Priced(start, LogAfter(start, run))
  {
    if run != [] {
      var before, a := run[..|run| - 1], run[|run| - 1];
      EveryLogIsPriced(start, before);
      QuoteUnderTerms(start, before, a);
      if QuoteTransfer(start, a).Success? { PricedEntry(start, a); }
    }
  }

  lemma {:induction false} PricedEntry(start: PolicyData, a: Attempt)
    requires Aligned(start) && QuoteTransfer(start, a).Success?
    ensures FromTerms(start, Accepted(QuoteTransfer(start, a).value, a.env.sequence))
  {
    QuoteExactly(start, a);
    MulMonotone(0, a.context.args[2].i128, a.reply.value.value.price);
  }

  /** The exact dollar value of one transfer, a rational. */
  ghost function ExactValue(start: PolicyData, e: Accepted): real
    requires Aligned(start) && FromTerms(start, e)
  {
    (e.quote.amount * e.quote.price) as real / Scale(start, e.quote.token) as real
  }

  ghost function ExactTotal(start: PolicyData, log: seq<Accepted>): real
    requires Aligned(start) && Priced(start, log)
  {
    if log == [] then 0.0 else
    ExactTotal(start, log[..|log| - 1]) + ExactValue(start, log[|log| - 1])
  }

  lemma {:induction false} RealMulStrict(a: real, b: real, c: real)
    requires a < b && c > 0.0
    ensures a * c < b * c
  {
    assert (b - a) * c > 0.0;
  }

  /** Comparing a quotient of reals by multiplying out. */
  lemma {:induction false} RealQuotientBelow(x: real, r: real, bound: real)
    requires r > 0.0 && x < bound * r
    ensures x / r < bound
  {
    var y := x / r;
    assert y * r == x;
    if y > bound { RealMulStrict(bound, y, r); }
  }

  lemma {:induction false} RealQuotientAbove(x: real, r: real, bound: real)
    requires r > 0.0 && bound * r <= x
    ensures bound <= x / r
  {
    var y := x / r;
    assert y * r == x;
    if y < bound { RealMulStrict(y, bound, r); }
  }

  lemma {:induction false} RealQuotient(x: nat, d: int)
    requires d > 0
    ensures (x / d) as real <= x as real / d as real < (x / d) as real + 1.0
  {
    QuotientBounds(x, d);
    var q, r := (x / d) as real, d as real;
    assert ((x / d) * d) as real == q * r;
    assert (q + 1.0) * r == q * r + r;
    RealQuotientAbove(x as real, r, q);
    RealQuotientBelow(x as real, r, q + 1.0);
  }

  /** A transfer's recorded value is its exact value, less than one dollar short. */
  lemma {:induction false} TotalUndercounts(start: PolicyData, log: seq<Accepted>)
    requires Aligned(start) && Priced(start, log)
    ensures Total(log) as real <= ExactTotal(start, log) <= (Total(log) + |log|) as real
    ensures log != [] ==> ExactTotal(start, log) < (Total(log) + |log|) as real
  {
    if log != [] {
      var e := log[|log| - 1];
      Peel(log, 0, 0);
      TotalUndercounts(start, log[..|log| - 1]);
      RealQuotient(e.quote.amount * e.quote.price, Scale(start, e.quote.token));
    }
  }

  /** Over every run, in every stretch of `period` ledgers: recorded value at most the limit, at most
      1000 transfers, and exact value at most the limit plus one dollar for each of them. */
  lemma {:induction false} ExactValueBound(start: PolicyData, run: seq<Attempt>, end: int)
    requires Installed(start) && CapIsExact(start) && Chronological(run, 1)
    ensures var stretch := Stretch(start, LogAfter(start, run), end);
            && Total(stretch) <= start.spendingLimitUsd
            && |stretch| <= 1000
            && Priced(start, stretch)
            && ExactTotal(start, stretch) <= (start.spendingLimitUsd + |stretch|) as real
  {
    var log := LogAfter(start, run);
    var stretch := Stretch(start, log, end);
    WindowSafetyAt(start, run, end);
    EveryLogIsPriced(start, run);
    forall i | 0 <= i < |stretch| ensures FromTerms(start, stretch[i]) {
      WithinMember(log, end - start.periodLedgers, end, stretch[i]);
    }
    TotalUndercounts(start, stretch);
  }

  /** The same for what the contract itself stores: every entry of a valid contract keeps its limit
      over the calls made under it, whatever happened to other entries. */
  lemma {:induction false} StoredEntryKeepsLimit(c: MultiTokenSpendingLimitPolicy, k: AccountContext)
    requires c.Valid() && k in c.storage
    requires CapIsExact(c.installed[k]) && Chronological(c.runs[k], 1)
    ensures WithinLimit(c.installed[k], LogAfter(c.installed[k], c.runs[k]))
    ensures c.storage[k].cachedTotalSpentUsd <= c.installed[k].spendingLimitUsd
  {
    forall end: int
      ensures Total(Stretch(c.installed[k], LogAfter(c.installed[k], c.runs[k]), end))
           <= c.installed[k].spendingLimitUsd
    {
      WindowSafetyAt(c.installed[k], c.runs[k], end);
    }
    StateInvariant(c.installed[k], c.runs[k]);
    TermsKept(c.installed[k], c.runs[k]);
  }
}
