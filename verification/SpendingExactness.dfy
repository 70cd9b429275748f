/** Exactly which installations keep the limit on every run: the two ways the limit can be passed,
    as concrete runs, and their absence as the condition. */
module SpendingExactness {
  import opened Arithmetic
  import opened HostTypes
  import opened SpendingLimit
  import opened SpendingWindow
  import opened SpendingRuns
  import opened SpendingGuarantees

  /** An authorized transfer of `amount` raw units, priced at one oracle unit, at a given ledger. */
  function Pay(t: Address, amount: i128, ledger: u32): Attempt {
    Attempt(true, Contract(t, "transfer", [Addr(t), Addr(t), I128(amount)]), Env(ledger, 0),
            Returned(Some(PriceData(1, 0))))
  }

  function Repeat<T>(x: T, n: nat): seq<T> {
    seq(n, _ => x)
  }

  lemma {:induction false} PayQuote(start: PolicyData, d: PolicyData, t: Address, amount: i128, ledger: u32)
    requires Aligned(start) && t in start.allowedTokens && amount >= 0
    requires d == start.(spendingHistory := d.spendingHistory, cachedTotalSpentUsd := d.cachedTotalSpentUsd)
    ensures 0 <= amount / Scale(start, t) <= I128_MAX
    ensures QuoteTransfer(d, Pay(t, amount, ledger))
         == Success(Quote(t, amount, 1, TokenDivisor(start, t), amount / Scale(start, t)))
  {
    QuoteExactly(start, Pay(t, amount, ledger));
    QuotientBounds(amount, Scale(start, t));
  }

  lemma {:induction false} RepeatStep<T>(x: T, n: nat)
    ensures Repeat(x, n + 1) == Repeat(x, n) + [x]
  {
  }

  /** In state `d` the call is accepted as `e` and leads to `after`. */
  predicate Accepts(d: PolicyData, a: Attempt, e: Accepted, after: PolicyData) {
    Decide(d, a) == Success(after) && QuoteTransfer(d, a) == Success(e.quote) && e.ledger == a.env.sequence
  }

  lemma {:induction false} PayAccepted(start: PolicyData, d: PolicyData, t: Address, amount: i128, ledger: u32)
    requires Aligned(start) && t in start.allowedTokens && amount >= 0
    requires d == start.(spendingHistory := d.spendingHistory, cachedTotalSpentUsd := d.cachedTotalSpentUsd)
    ensures 0 <= amount / Scale(start, t) <= I128_MAX
    ensures var usd := amount / Scale(start, t);
            Admit(d, usd, ledger).Success? ==>
              Accepts(d, Pay(t, amount, ledger), Accepted(Quote(t, amount, 1, TokenDivisor(start, t), usd), ledger),
                      Admit(d, usd, ledger).value)
  {
    PayQuote(start, d, t, amount, ledger);
  }

  lemma {:induction false} AcceptsOnce(start: PolicyData, run: seq<Attempt>, a: Attempt, e: Accepted, after: PolicyData)
    requires Accepts(DataAfter(start, run), a, e, after)
    ensures DataAfter(start, run + [a]) == after && LogAfter(start, run + [a]) == LogAfter(start, run) + [e]
  {
    DataAfterStep(start, run, a);
    LogAfterStep(start, run, a);
  }

  /** A call that every state it leads to accepts again can be repeated at will. */
  lemma {:induction false} Flood(start: PolicyData, a: Attempt, e: Accepted, n: nat, state: nat -> PolicyData)
    requires state(0) == start && forall i: nat :: i < n ==> Accepts(state(i), a, e, state(i + 1))
    ensures DataAfter(start, Repeat(a, n)) == state(n) && LogAfter(start, Repeat(a, n)) == Repeat(e, n)
  {
    if n > 0 {
      Flood(start, a, e, n - 1, state);
      RepeatStep(a, n - 1);
      RepeatStep(e, n - 1);
      AcceptsOnce(start, Repeat(a, n - 1), a, e, state(n));
    }
  }

  /** The log of a run of `n` copies of one accepted call. */
  lemma {:induction false} RepeatTotals(e: Accepted, n: nat, lo: int, hi: int)
    requires lo <= e.ledger < hi
    ensures Within(Repeat(e, n), lo, hi) == Repeat(e, n)
    ensures Total(Repeat(e, n)) == n * e.quote.usd
  {
    if n > 0 {
      RepeatTotals(e, n - 1, lo, hi);
      RepeatStep(e, n - 1);
      WithinPush(Repeat(e, n - 1), e, lo, hi);
      TotalPush(Repeat(e, n - 1), e);
      assert n * e.quote.usd == (n - 1) * e.quote.usd + e.quote.usd;
    }
  }

  // ---------- Ledger zero ----------

  /** At ledger 0 the saturating cutoff evicts what was accepted in the same ledger. */
  lemma {:induction false} LedgerZeroForgets(start: PolicyData, d: PolicyData, usd: i128)
    requires start.spendingLimitUsd >= usd >= 0
    requires d == start.(spendingHistory := [], cachedTotalSpentUsd := 0)
          || d == start.(spendingHistory := [SpendingEntry(usd, 0)], cachedTotalSpentUsd := usd)
    ensures Admit(d, usd, 0) == Success(start.(spendingHistory := [SpendingEntry(usd, 0)], cachedTotalSpentUsd := usd))
  {
    assert Monus(0, d.periodLedgers) == 0;
    var n := ExpiredCount(d.spendingHistory, 0, 0);
    ExpiredCountIs(d.spendingHistory, 0, 0);
    assert n == |d.spendingHistory|;
    assert SaturatingTotal(d.spendingHistory, n) == d.cachedTotalSpentUsd;
    assert d.spendingHistory[n..] == [];
    assert Evict(d, 0) == start.(spendingHistory := [], cachedTotalSpentUsd := 0);
    assert [] + [SpendingEntry(usd, 0)] == [SpendingEntry(usd, 0)];
  }

  /** The state after `n` one-dollar transfers at ledger 0. */
  function AtZero(start: PolicyData, n: nat): PolicyData {
    if n == 0 then start else start.(spendingHistory := [SpendingEntry(1, 0)], cachedTotalSpentUsd := 1)
  }

  lemma {:induction false} AtZeroAccepts(start: PolicyData, t: Address, i: nat)
    requires Installed(start) && t in start.allowedTokens && Scale(start, t) <= I128_MAX
    ensures Accepts(AtZero(start, i), Pay(t, Scale(start, t), 0),
                    Accepted(Quote(t, Scale(start, t), 1, TokenDivisor(start, t), 1), 0), AtZero(start, i + 1))
  {
    QuotientIs(Scale(start, t), Scale(start, t), 1, 0);
    LedgerZeroForgets(start, AtZero(start, i), 1);
    PayAccepted(start, AtZero(start, i), t, Scale(start, t), 0);
  }

  /** One dollar, any number of times, at ledger 0. */
  lemma {:induction false} FloodAtZero(start: PolicyData, t: Address, n: nat)
    requires Installed(start) && t in start.allowedTokens && Scale(start, t) <= I128_MAX
    ensures var e := Accepted(Quote(t, Scale(start, t), 1, TokenDivisor(start, t), 1), 0);
            LogAfter(start, Repeat(Pay(t, Scale(start, t), 0), n)) == Repeat(e, n)
  {
    var s := Scale(start, t);
    var e := Accepted(Quote(t, s, 1, TokenDivisor(start, t), 1), 0);
    forall i: nat ensures Accepts(AtZero(start, i), Pay(t, s, 0), e, AtZero(start, i + 1)) {
      AtZeroAccepts(start, t, i);
    }
    Flood(start, Pay(t, s, 0), e, n, (i: nat) => AtZero(start, i));
  }

  // ---------- A limit of I128_MAX ----------

  /** With the limit at `I128_MAX` the saturated sum at most ties with it: whatever the state holds and
      whatever the transfer is worth, it is admitted exactly while fewer than 1000 entries are live. */
  lemma {:induction false} SaturatedSumAccepted(d: PolicyData, usd: i128, current: u32)
    requires d.spendingLimitUsd == I128_MAX
    ensures Admit(d, usd, current).Success? <==> |Evict(d, current).spendingHistory| < 1000
    ensures Admit(d, usd, current).Success? ==>
              var (live, after) := (Evict(d, current), Admit(d, usd, current).value);
              && after.spendingHistory == live.spendingHistory + [SpendingEntry(usd, current)]
              && after.cachedTotalSpentUsd == Clamp(live.cachedTotalSpentUsd + usd)
  {
  }

  lemma {:induction false} RepeatedAdmit(start: PolicyData, d: PolicyData, usd: i128, ledger: u32, n: nat)
    requires start.spendingLimitUsd == I128_MAX && start.periodLedgers > 0 && usd >= 0 && ledger >= 1
    requires n < MAX_HISTORY_ENTRIES
    requires d == start.(spendingHistory := Repeat(SpendingEntry(usd, ledger), n),
                         cachedTotalSpentUsd := Clamp(n * usd))
    ensures Admit(d, usd, ledger)
         == Success(start.(spendingHistory := Repeat(SpendingEntry(usd, ledger), n + 1),
                           cachedTotalSpentUsd := Clamp((n + 1) * usd)))
  {
    var cutoff := Monus(ledger, d.periodLedgers);
    ExpiredCountIs(d.spendingHistory, cutoff, 0);
    assert ExpiredCount(d.spendingHistory, cutoff, 0) == 0;
    assert d.spendingHistory[0..] == d.spendingHistory;
    MulMonotone(0, n, usd);
    assert Evict(d, ledger) == d;
    assert (n + 1) * usd == n * usd + usd;
    assert SaturatingAdd(Clamp(n * usd), usd) == Clamp((n + 1) * usd);
    RepeatStep(SpendingEntry(usd, ledger), n);
    SaturatedSumAccepted(d, usd, ledger);
  }

  /** The state after `n` transfers of `usd` dollars each at one ledger. */
  function AtMax(start: PolicyData, usd: i128, ledger: u32, n: nat): PolicyData {
    start.(spendingHistory := Repeat(SpendingEntry(usd, ledger), n), cachedTotalSpentUsd := Clamp(n * usd))
  }

  lemma {:induction false} AtMaxAccepts(start: PolicyData, t: Address, usd: i128, ledger: u32, i: nat)
    requires Installed(start) && t in start.allowedTokens && usd == I128_MAX / Scale(start, t) && usd >= 0
    requires start.spendingLimitUsd == I128_MAX && ledger >= 1 && i < MAX_HISTORY_ENTRIES
    ensures Accepts(AtMax(start, usd, ledger, i), Pay(t, I128_MAX, ledger),
                    Accepted(Quote(t, I128_MAX, 1, TokenDivisor(start, t), usd), ledger),
                    AtMax(start, usd, ledger, i + 1))
  {
    RepeatedAdmit(start, AtMax(start, usd, ledger, i), usd, ledger, i);
    PayAccepted(start, AtMax(start, usd, ledger, i), t, I128_MAX, ledger);
  }

  lemma {:induction false} FloodAtMax(start: PolicyData, t: Address, ledger: u32, n: nat)
    requires Installed(start) && t in start.allowedTokens
    requires start.spendingLimitUsd == I128_MAX && ledger >= 1 && n <= MAX_HISTORY_ENTRIES
    ensures 0 <= I128_MAX / Scale(start, t) <= I128_MAX
    ensures var e := Accepted(Quote(t, I128_MAX, 1, TokenDivisor(start, t), I128_MAX / Scale(start, t)), ledger);
            LogAfter(start, Repeat(Pay(t, I128_MAX, ledger), n)) == Repeat(e, n)
  {
    QuotientBounds(I128_MAX, Scale(start, t));
    var usd := I128_MAX / Scale(start, t);
    var e := Accepted(Quote(t, I128_MAX, 1, TokenDivisor(start, t), usd), ledger);
    assert Repeat(SpendingEntry(usd, ledger), 0) == [];
    forall i: nat | i < n
      ensures Accepts(AtMax(start, usd, ledger, i), Pay(t, I128_MAX, ledger), e, AtMax(start, usd, ledger, i + 1))
    {
      AtMaxAccepts(start, t, usd, ledger, i);
    }
    Flood(start, Pay(t, I128_MAX, ledger), e, n, (i: nat) => AtMax(start, usd, ledger, i));
  }

  /** Just over `scale` transfers of the largest amount pass `I128_MAX` dollars. */
  lemma {:induction false} FloodPassesMax(s: int)
    requires 0 < s < MAX_HISTORY_ENTRIES
    ensures (s + 1) * (I128_MAX / s) > I128_MAX
  {
    QuotientBounds(I128_MAX, s);
    if I128_MAX / s < 1000 { MulMonotone(I128_MAX / s, 1000, s); }
    assert (s + 1) * (I128_MAX / s) == (I128_MAX / s) * s + I128_MAX / s;
  }

  // ---------- The exact condition ----------

  /** No run whose ledgers start at `first` or later ever passes the limit within a period. */
  ghost predicate LimitHolds(start: PolicyData, first: u32) {
    forall run: seq<Attempt> :: Chronological(run, first) ==> WithinLimit(start, LogAfter(start, run))
  }

  /** Every allowed token has so many decimals that no transfer is ever worth a dollar. */
  ghost predicate Worthless(start: PolicyData)
    requires Aligned(start)
  {
    forall t :: t in start.allowedTokens ==> Scale(start, t) > I128_MAX
  }

  lemma {:induction false} WorthlessIsSafe(start: PolicyData, run: seq<Attempt>, end: int)
    requires Installed(start) && Worthless(start)
    ensures Total(Stretch(start, LogAfter(start, run), end)) <= start.spendingLimitUsd
  {
    var log := LogAfter(start, run);
    var stretch := Stretch(start, log, end);
    EveryLogIsPriced(start, run);
    forall i | 0 <= i < |stretch| ensures stretch[i].quote.usd <= 0 {
      WithinMember(log, end - start.periodLedgers, end, stretch[i]);
      var e := stretch[i].quote;
      QuotientIs(e.amount * e.price, Scale(start, e.token), 0, e.amount * e.price);
    }
    TotalAtMost(stretch, 0);
  }

  /** One more one-dollar transfer than the limit allows, all at ledger 0: every one is accepted. */
  lemma {:induction false} LimitPassedAtZero(start: PolicyData, t: Address)
    requires Installed(start) && t in start.allowedTokens && Scale(start, t) <= I128_MAX
    ensures var (n, a) := (start.spendingLimitUsd + 1, Pay(t, Scale(start, t), 0));
            && QuoteTransfer(start, a).Success? && QuoteTransfer(start, a).value.usd == 1
            && Chronological(Repeat(a, n), 0)
            && |LogAfter(start, Repeat(a, n))| == n
            && Total(Stretch(start, LogAfter(start, Repeat(a, n)), 1)) == n > start.spendingLimitUsd
    ensures !LimitHolds(start, 0)
  {
    var (n, a) := (start.spendingLimitUsd + 1, Pay(t, Scale(start, t), 0));
    var e := Accepted(Quote(t, Scale(start, t), 1, TokenDivisor(start, t), 1), 0);
    QuotientIs(Scale(start, t), Scale(start, t), 1, 0);
    PayQuote(start, start, t, Scale(start, t), 0);
    FloodAtZero(start, t, n);
    RepeatTotals(e, n, 1 - start.periodLedgers, 1);
    LimitNotHeld(start, 0, Repeat(a, n), 1);
  }

  /** Just over `scale`, so at most 1000, transfers of the largest amount at one ledger: every one is accepted. */
  lemma {:induction false} LimitPassedAtMax(start: PolicyData, t: Address, first: u32)
    requires Installed(start) && t in start.allowedTokens
    requires start.spendingLimitUsd == I128_MAX && Scale(start, t) < MAX_HISTORY_ENTRIES && first >= 1
    ensures var (n, a) := (Scale(start, t) + 1, Pay(t, I128_MAX, first));
            && n <= 1000
            && Chronological(Repeat(a, n), first)
            && |LogAfter(start, Repeat(a, n))| == n
            && Total(Stretch(start, LogAfter(start, Repeat(a, n)), first + 1)) > start.spendingLimitUsd
    ensures !LimitHolds(start, first)
  {
    var s := Scale(start, t);
    var (n, a) := (s + 1, Pay(t, I128_MAX, first));
    FloodAtMax(start, t, first, n);
    FloodPassesMax(s);
    var e := Accepted(Quote(t, I128_MAX, 1, TokenDivisor(start, t), I128_MAX / s), first);
    RepeatTotals(e, n, first + 1 - start.periodLedgers, first + 1);
    LimitNotHeld(start, first, Repeat(a, n), first + 1);
  }

  lemma {:induction false} LimitNotHeld(start: PolicyData, first: u32, run: seq<Attempt>, end: int)
    requires Chronological(run, first)
    requires Total(Stretch(start, LogAfter(start, run), end)) > start.spendingLimitUsd
    ensures !LimitHolds(start, first)
  {
  }

  /** Window safety, exactly: an installation keeps its limit in every stretch of `period` ledgers on
      every run from ledger `first` on if and only if ledger 0 is excluded and either the limit is below
      `I128_MAX` or each token's divisors multiply to at least 1000; or no transfer is ever worth a dollar. */
  lemma {:induction false} LimitHoldsExactly(start: PolicyData, first: u32)
    requires Installed(start)
    ensures LimitHolds(start, first) <==> (first >= 1 && CapIsExact(start)) || Worthless(start)
  {
    if Worthless(start) {
      forall run: seq<Attempt> | Chronological(run, first) ensures WithinLimit(start, LogAfter(start, run)) {
        forall end: int ensures Total(Stretch(start, LogAfter(start, run), end)) <= start.spendingLimitUsd {
          WorthlessIsSafe(start, run, end);
        }
      }
    } else if first == 0 {
      var t :| t in start.allowedTokens && Scale(start, t) <= I128_MAX;
      LimitPassedAtZero(start, t);
    } else if CapIsExact(start) {
      forall run: seq<Attempt> | Chronological(run, first) ensures WithinLimit(start, LogAfter(start, run)) {
        forall end: int ensures Total(Stretch(start, LogAfter(start, run), end)) <= start.spendingLimitUsd {
          WindowSafetyAt(start, run, end);
        }
      }
    } else {
      var t :| t in start.allowedTokens && Scale(start, t) < MAX_HISTORY_ENTRIES;
      LimitPassedAtMax(start, t, first);
    }
  }
}
