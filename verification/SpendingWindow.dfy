/** Logs of accepted transfers, cut to a window of ledgers, and the arithmetic that ties the
    policy's evicting cache to them. */
module SpendingWindow {
  import opened HostTypes
  import opened SpendingLimit

  /** One accepted transfer. */
  datatype Accepted = Accepted(quote: Quote, ledger: u32)

  /** Later than every ledger. */
  const END: int := U32_MAX + 1

  /** The transfers accepted at a ledger in `[lo, hi)`, in order. */
  function Within(log: seq<Accepted>, lo: int, hi: int): (w: seq<Accepted>)
    ensures |w| <= |log|
  {
    WithinFirst(log, |log|, lo, hi)
  }

  function WithinFirst(log: seq<Accepted>, n: nat, lo: int, hi: int): (w: seq<Accepted>)
    requires n <= |log|
    ensures |w| <= n
  {
    if n == 0 then [] else
    var earlier := WithinFirst(log, n - 1, lo, hi);
    if lo <= log[n - 1].ledger < hi then earlier + [log[n - 1]] else earlier
  }

  /** The recorded dollars of a log. */
  function Total(log: seq<Accepted>): int {
    TotalFirst(log, |log|)
  }

  function TotalFirst(log: seq<Accepted>, n: nat): int
    requires n <= |log|
  {
    if n == 0 then 0 else TotalFirst(log, n - 1) + log[n - 1].quote.usd
  }

  function Entries(log: seq<Accepted>): seq<SpendingEntry> {
    seq(|log|, i requires 0 <= i < |log| => SpendingEntry(log[i].quote.usd, log[i].ledger))
  }

  ghost predicate Ordered(log: seq<Accepted>) {
    forall i, j :: 0 <= i < j < |log| ==> log[i].ledger <= log[j].ledger
  }

  ghost predicate NonNegative(log: seq<Accepted>) {
    forall i :: 0 <= i < |log| ==> log[i].quote.usd >= 0
  }

  lemma {:induction false} WithinFirstPush(log: seq<Accepted>, e: Accepted, n: nat, lo: int, hi: int)
    requires n <= |log|
    ensures WithinFirst(log + [e], n, lo, hi) == WithinFirst(log, n, lo, hi)
    ensures TotalFirst(log + [e], n) == TotalFirst(log, n)
  {
    if n > 0 { WithinFirstPush(log, e, n - 1, lo, hi); }
  }

  lemma {:induction false} WithinPush(log: seq<Accepted>, e: Accepted, lo: int, hi: int)
    ensures Within(log + [e], lo, hi) == if lo <= e.ledger < hi then Within(log, lo, hi) + [e] else Within(log, lo, hi)
  {
    WithinFirstPush(log, e, |log|, lo, hi);
  }

  lemma {:induction false} TotalPush(log: seq<Accepted>, e: Accepted)
    ensures Total(log + [e]) == Total(log) + e.quote.usd
  {
    WithinFirstPush(log, e, |log|, 0, 0);
  }

  /** Peels off the newest transfer. */
  lemma {:induction false} Peel(log: seq<Accepted>, lo: int, hi: int)
    requires log != []
    ensures var (before, e) := (log[..|log| - 1], log[|log| - 1]);
            && log == before + [e]
            && Total(log) == Total(before) + e.quote.usd
            && Within(log, lo, hi)
               == if lo <= e.ledger < hi then Within(before, lo, hi) + [e] else Within(before, lo, hi)
  {
    var (before, e) := (log[..|log| - 1], log[|log| - 1]);
    assert log == before + [e];
    WithinPush(before, e, lo, hi);
    TotalPush(before, e);
  }

  lemma {:induction false} TotalConcat(a: seq<Accepted>, b: seq<Accepted>)
    ensures Total(a + b) == Total(a) + Total(b)
  {
    if b == [] {
      assert a + b == a;
    } else {
      var n := |b| - 1;
      Peel(b, 0, 0);
      TotalConcat(a, b[..n]);
      TotalPush(a + b[..n], b[n]);
      assert a + b == (a + b[..n]) + [b[n]];
    }
  }

  lemma {:induction false} TotalNonNegative(log: seq<Accepted>)
    requires NonNegative(log)
    ensures Total(log) >= 0
  {
    if log != [] {
      Peel(log, 0, 0);
      TotalNonNegative(log[..|log| - 1]);
    }
  }

  /** A window holds exactly the transfers of the log inside its bounds. */
  lemma {:induction false} WithinMember(log: seq<Accepted>, lo: int, hi: int, e: Accepted)
    ensures e in Within(log, lo, hi) <==> e in log && lo <= e.ledger < hi
  {
    if log != [] {
      var n := |log| - 1;
      Peel(log, lo, hi);
      WithinMember(log[..n], lo, hi, e);
    }
  }

  lemma {:induction false} WithinOrdered(log: seq<Accepted>, lo: int, hi: int)
    requires Ordered(log)
    ensures Ordered(Within(log, lo, hi))
  {
    if log != [] {
      var n := |log| - 1;
      Peel(log, lo, hi);
      WithinOrdered(log[..n], lo, hi);
      var w := Within(log[..n], lo, hi);
      forall i | 0 <= i < |w| ensures w[i].ledger <= log[n].ledger {
        WithinMember(log[..n], lo, hi, w[i]);
      }
    }
  }

  lemma {:induction false} WithinNonNegative(log: seq<Accepted>, lo: int, hi: int)
    requires NonNegative(log)
    ensures NonNegative(Within(log, lo, hi))
  {
    var w := Within(log, lo, hi);
    forall i | 0 <= i < |w| ensures w[i].quote.usd >= 0 {
      WithinMember(log, lo, hi, w[i]);
    }
  }

  /** A narrower window holds fewer transfers, worth no more. */
  lemma {:induction false} WithinNarrower(log: seq<Accepted>, lo: int, hi: int, lo': int, hi': int)
    requires lo <= lo' && hi' <= hi && NonNegative(log)
    ensures |Within(log, lo', hi')| <= |Within(log, lo, hi)|
    ensures Total(Within(log, lo', hi')) <= Total(Within(log, lo, hi))
  {
    if log != [] {
      var n := |log| - 1;
      Peel(log, lo, hi);
      Peel(log, lo', hi');
      WithinNarrower(log[..n], lo, hi, lo', hi');
      TotalPush(Within(log[..n], lo, hi), log[n]);
      TotalPush(Within(log[..n], lo', hi'), log[n]);
    }
  }

  /** Cutting twice is cutting once to the later start. */
  lemma {:induction false} WithinTwice(log: seq<Accepted>, lo: int, lo': int, hi: int)
    requires lo <= lo'
    ensures Within(Within(log, lo, hi), lo', hi) == Within(log, lo', hi)
  {
    if log != [] {
      var n := |log| - 1;
      Peel(log, lo, hi);
      Peel(log, lo', hi);
      WithinTwice(log[..n], lo, lo', hi);
      WithinPush(Within(log[..n], lo, hi), log[n], lo', hi);
    }
  }

  /** An upper bound no transfer reaches does not matter. */
  lemma {:induction false} WithinAnyEnd(log: seq<Accepted>, lo: int, hi: int, hi': int)
    requires forall i :: 0 <= i < |log| ==> log[i].ledger < hi && log[i].ledger < hi'
    ensures Within(log, lo, hi) == Within(log, lo, hi')
  {
    if log != [] {
      Peel(log, lo, hi);
      Peel(log, lo, hi');
      WithinAnyEnd(log[..|log| - 1], lo, hi, hi');
    }
  }

  /** What lies in the stretch up to `hi` fits in any longer tail. */
  lemma {:induction false} StretchInTail(log: seq<Accepted>, lo: int, lo': int, hi: int)
    requires lo <= lo' && NonNegative(log)
    requires forall i :: 0 <= i < |log| ==> log[i].ledger < hi
    ensures |Within(log, lo', hi)| <= |Within(log, lo, END)|
    ensures Total(Within(log, lo', hi)) <= Total(Within(log, lo, END))
  {
    WithinAnyEnd(log, lo', hi, END);
    WithinNarrower(log, lo, END, lo', END);
  }

  /** On an ordered log a window without an upper bound is a suffix. */
  lemma {:induction false} WithinIsSuffix(log: seq<Accepted>, n: nat, lo: int)
    requires Ordered(log) && n <= |log|
    requires forall i :: 0 <= i < n ==> log[i].ledger < lo
    requires n < |log| ==> log[n].ledger >= lo
    ensures Within(log, lo, END) == log[n..]
  {
    if log != [] {
      var m := |log| - 1;
      Peel(log, lo, END);
      if n < |log| {
        WithinIsSuffix(log[..m], n, lo);
        assert log[n..] == log[..m][n..] + [log[m]];
      } else {
        WithinIsSuffix(log[..m], m, lo);
      }
    }
  }

  // ---------- Eviction ----------

  lemma {:induction false} ExpiredCountIs(history: seq<SpendingEntry>, cutoff: nat, i: nat)
    requires i <= |history|
    ensures var n := ExpiredCount(history, cutoff, i);
            && (forall j :: i <= j < n ==> history[j].ledger <= cutoff)
            && (n < |history| ==> history[n].ledger > cutoff)
    decreases |history| - i
  {
    if i < |history| && history[i].ledger <= cutoff { ExpiredCountIs(history, cutoff, i + 1); }
  }

  /** Totals that fit never saturate on the way. */
  lemma {:induction false} SaturatingTotalIsTotal(log: seq<Accepted>, n: nat)
    requires n <= |log| && NonNegative(log) && Total(log) <= I128_MAX
    ensures SaturatingTotal(Entries(log), n) == Total(log[..n])
    ensures 0 <= Total(log[..n]) <= Total(log)
  {
    assert log == log[..n] + log[n..];
    TotalConcat(log[..n], log[n..]);
    TotalNonNegative(log[..n]);
    TotalNonNegative(log[n..]);
    if n > 0 {
      SaturatingTotalIsTotal(log, n - 1);
      assert log[..n] == log[..n - 1] + [log[n - 1]];
      TotalPush(log[..n - 1], log[n - 1]);
    }
  }

  /** The front that `cleanup_old_entries` pops is what lies outside the window: with positive
      ledgers the saturating cutoff of a young chain evicts nothing. */
  lemma {:induction false} ExpiredFront(log: seq<Accepted>, current: u32, period: u32, n: nat)
    requires Ordered(log) && forall i :: 0 <= i < |log| ==> log[i].ledger >= 1
    requires n == ExpiredCount(Entries(log), Monus(current, period), 0)
    ensures Within(log, current - period + 1, END) == log[n..]
  {
    ExpiredCountIs(Entries(log), Monus(current, period), 0);
    assert forall i :: 0 <= i < |log| ==> Entries(log)[i].ledger == log[i].ledger;
    WithinIsSuffix(log, n, current - period + 1);
  }

  lemma {:induction false} SplitTotals(log: seq<Accepted>, n: nat)
    requires n <= |log| && NonNegative(log) && Total(log) <= I128_MAX
    ensures 0 <= Total(log[n..]) <= I128_MAX
    ensures SaturatingTotal(Entries(log), n) == Total(log) - Total(log[n..])
  {
    SaturatingTotalIsTotal(log, n);
    assert log == log[..n] + log[n..];
    TotalConcat(log[..n], log[n..]);
    TotalNonNegative(log[n..]);
  }

  /** Evicting from a history that mirrors an ordered log of positive ledgers leaves exactly
      the transfers newer than `current - period`, and a total that agrees with them. */
  lemma {:induction false} EvictIsWindow(d: PolicyData, log: seq<Accepted>, current: u32)
    requires Ordered(log) && NonNegative(log) && Total(log) <= I128_MAX
    requires forall i :: 0 <= i < |log| ==> log[i].ledger >= 1
    requires d.spendingHistory == Entries(log) && d.cachedTotalSpentUsd == Total(log)
    ensures var live := Within(log, current - d.periodLedgers + 1, END);
            && 0 <= Total(live) <= I128_MAX
            && Evict(d, current) == d.(spendingHistory := Entries(live), cachedTotalSpentUsd := Total(live))
  {
    var n := ExpiredCount(Entries(log), Monus(current, d.periodLedgers), 0);
    ExpiredFront(log, current, d.periodLedgers, n);
    SplitTotals(log, n);
    assert Entries(log)[n..] == Entries(log[n..]);
  }
}
