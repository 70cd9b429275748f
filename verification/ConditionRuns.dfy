/** What the parameter-scoped policy guarantees: what a set of conditions accepts, and what the store
    holds after any run on any number of accounts and rules. */
module ConditionRuns {
  import opened HostTypes
  import opened Conditions

  // ---------- Acceptance ----------

  ghost predicate AllHold(cs: seq<Condition>, args: seq<Val>) {
    forall i :: 0 <= i < |cs| ==> Holds(cs[i], args)
  }

  lemma {:induction false} FirstFailureExactly(cs: seq<Condition>, args: seq<Val>, i: nat)
    requires i <= |cs|
    ensures FirstFailure(cs, args, i) == None <==> forall j :: i <= j < |cs| ==> Holds(cs[j], args)
    ensures FirstFailure(cs, args, i).Some? ==>
              exists j :: i <= j < |cs| && !Holds(cs[j], args)
                          && ErrorOf(cs[j], args) == FirstFailure(cs, args, i).value
                          && forall m :: i <= m < j ==> Holds(cs[m], args)
    decreases |cs| - i
  {
    if i < |cs| && Holds(cs[i], args) { FirstFailureExactly(cs, args, i + 1); }
  }

  /** A call is accepted exactly when it is authorized and signed, the policy is installed, the call names a granted
      function, and every condition of that function finds its argument and passes: a conjunction, with no function
      allowed by default. */
  lemma {:induction false} AcceptsConjunction(entry: Option<Grants>, r: Request)
    ensures Judge(entry, r).Success?
       <==> r.authorized && r.signed && entry.Some? && r.context.Contract? && r.context.fnName in entry.value
            && forall c :: c in entry.value[r.context.fnName] ==>
                 c.argIndex < |r.context.args| && Passes(r.context.args[c.argIndex], c)
  {
    if entry.Some? && r.context.Contract? && r.context.fnName in entry.value {
      var cs := entry.value[r.context.fnName];
      FirstFailureExactly(cs, r.context.args, 0);
      assert forall c :: c in cs ==> exists j :: 0 <= j < |cs| && cs[j] == c;
    }
  }

  /** Which failure refuses a call: the first of these that applies, and among the conditions the first that does
      not hold. */
  lemma {:induction false} RefusesWith(entry: Option<Grants>, r: Request)
    requires Judge(entry, r).Failure?
    ensures var f := Judge(entry, r).error;
            if !r.authorized then f == Trap
            else if !r.signed then f == Panic(MethodNotAllowed)
            else if entry.None? then f == Panic(SmartAccountNotInstalled)
            else if !r.context.Contract? || r.context.fnName !in entry.value then f == Panic(MethodNotAllowed)
            else
              var (cs, args) := (entry.value[r.context.fnName], r.context.args);
              exists j :: 0 <= j < |cs| && AllHold(cs[..j], args)
                && if cs[j].argIndex >= |args| then f == Panic(ArgumentIndexOutOfBounds)
                   else !Passes(args[cs[j].argIndex], cs[j]) && f == Panic(ConditionFailed)
  {
    if r.authorized && r.signed && entry.Some? && r.context.Contract? && r.context.fnName in entry.value {
      var (cs, args) := (entry.value[r.context.fnName], r.context.args);
      FirstFailureExactly(cs, args, 0);
      var j :| 0 <= j < |cs| && !Holds(cs[j], args) && ErrorOf(cs[j], args) == FirstFailure(cs, args, 0).value
               && forall m :: 0 <= m < j ==> Holds(cs[m], args);
      assert AllHold(cs[..j], args);
    }
  }

  /** The order of conditions does not matter, and adding conditions only narrows. */
  lemma {:induction false} MoreConditionsNarrow(g: Grants, h: Grants, r: Request)
    requires forall f :: f in h ==> f in g && multiset(g[f]) <= multiset(h[f])
    ensures Judge(Some(h), r).Success? ==> Judge(Some(g), r).Success?
  {
    AcceptsConjunction(Some(g), r);
    AcceptsConjunction(Some(h), r);
    if Judge(Some(h), r).Success? {
      var (few, many) := (g[r.context.fnName], h[r.context.fnName]);
      forall c | c in few ensures c in many {
        assert c in multiset(few);
        assert c in multiset(many);
      }
    }
  }

  lemma {:induction false} OrderDoesNotMatter(g: Grants, h: Grants, r: Request)
    requires g.Keys == h.Keys && forall f :: f in g ==> multiset(g[f]) == multiset(h[f])
    ensures Judge(Some(g), r).Success? <==> Judge(Some(h), r).Success?
  {
    MoreConditionsNarrow(g, h, r);
    MoreConditionsNarrow(h, g, r);
  }

  /** The two numbers a condition compares: both values of one integer type. */
  predicate Numbers(actual: Val, expected: Val, x: int, y: int) {
    || (actual.U32? && expected.U32? && actual.u32 == x && expected.u32 == y)
    || (actual.I32? && expected.I32? && actual.i32 == x && expected.i32 == y)
    || (actual.U64? && expected.U64? && actual.u64 == x && expected.u64 == y)
    || (actual.I64? && expected.I64? && actual.i64 == x && expected.i64 == y)
    || (actual.U128? && expected.U128? && actual.u128 == x && expected.u128 == y)
    || (actual.I128? && expected.I128? && actual.i128 == x && expected.i128 == y)
  }

  /** What a condition means: on two numbers of one type its operator as on the integers; on two symbols or two
      addresses equality or inequality, and nothing else; on any other argument nothing passes. */
  lemma {:induction false} PassesExactly(actual: Val, index: u32, expected: ExpectedValue, op: Operator)
    ensures Passes(actual, Condition(index, op, expected)) <==>
              || (exists x, y :: Numbers(actual, expected, x, y)
                    && match op
                       case Eq => x == y
                       case Neq => x != y
                       case Gt => x > y
                       case Gte => x >= y
                       case Lt => x < y
                       case Lte => x <= y)
              || (((actual.Sym? && expected.Sym?) || (actual.Addr? && expected.Addr?))
                  && ((op == Eq && actual == expected) || (op == Neq && actual != expected)))
  {
    if SameType(actual, expected) && Numeric(expected) {
      assert Numbers(actual, expected, Number(actual), Number(expected));
    }
  }

  /** On arguments of the expected type Eq and Neq are complements, the orderings are what Gt and Eq
      make of them, and no operator lets an argument of another type through. */
  lemma {:induction false} OperatorsPartition(actual: Val, index: u32, expected: ExpectedValue, op: Operator)
    ensures !SameType(actual, expected) ==> !Passes(actual, Condition(index, op, expected))
    ensures SameType(actual, expected) ==>
              && (Passes(actual, Condition(index, Eq, expected)) <==> actual == expected)
              && (Passes(actual, Condition(index, Neq, expected)) <==> !Passes(actual, Condition(index, Eq, expected)))
    ensures SameType(actual, expected) && Numeric(expected) ==>
              && (Passes(actual, Condition(index, Gt, expected)) <==> Number(actual) > Number(expected))
              && (Passes(actual, Condition(index, Gte, expected)) <==> Number(actual) >= Number(expected))
              && (Passes(actual, Condition(index, Lt, expected)) <==> Number(actual) < Number(expected))
              && (Passes(actual, Condition(index, Lte, expected)) <==> Number(actual) <= Number(expected))
              && (Passes(actual, Condition(index, Gte, expected)) <==> !Passes(actual, Condition(index, Lt, expected)))
              && (Passes(actual, Condition(index, Lte, expected)) <==> !Passes(actual, Condition(index, Gt, expected)))
              && (Passes(actual, Condition(index, Gte, expected)) && Passes(actual, Condition(index, Lte, expected))
                  <==> Passes(actual, Condition(index, Eq, expected)))
  {
  }

  /** Pinning: with `arg == pinned` among the conditions of a function, only calls with that argument pass. */
  lemma {:induction false} PinnedArgument(g: Grants, r: Request, c: Condition)
    requires Judge(Some(g), r).Success? && c in g[r.context.fnName] && c.operator == Eq
    ensures c.argIndex < |r.context.args| && r.context.args[c.argIndex] == c.expected
  {
    AcceptsConjunction(Some(g), r);
    OperatorsPartition(r.context.args[c.argIndex], c.argIndex, c.expected, Eq);
  }

  // ---------- When the store changes ----------

  /** Installable grants: 1 to 10 functions, each with 1 to 5 conditions, and symbols and addresses compared for
      equality or inequality only. */
  lemma {:induction false} GrantsOkExactly(g: Grants)
    ensures GrantsOk(g) <==>
              && 1 <= |g| <= 10
              && (forall f :: f in g ==> 1 <= |g[f]| <= 5)
              && (forall f, i :: f in g && 0 <= i < |g[f]| && (g[f][i].expected.Sym? || g[f][i].expected.Addr?) ==>
                    g[f][i].operator == Eq || g[f][i].operator == Neq)
  {
    assert forall f :: f in g ==> ((ConditionsOk(g[f]) <==> 1 <= |g[f]| <= 5 && forall i :: 0 <= i < |g[f]| ==>
      (g[f][i].expected.Sym? || g[f][i].expected.Addr? ==> g[f][i].operator == Eq || g[f][i].operator == Neq)));
  }

  /** An install succeeds exactly when it is authorized, the rule is for contract calls, the grants are installable
      and nothing is stored for its account and rule; then exactly these grants are stored there. */
  lemma {:induction false} InstallExactly(s: Storage, authorized: bool, g: Grants, rule: ContextRule, account: Address)
    ensures var (after, r) := Apply(s, OpInstall(authorized, g, rule, account));
            var k := AccountContext(account, rule.id);
            && (r.Success? <==> authorized && rule.contextType.CallContract? && GrantsOk(g) && k !in s)
            && after == (if r.Success? then s[k := g] else s)
            && (r.Failure? ==> r.error == if !authorized then Trap
                                          else if !rule.contextType.CallContract? then Panic(OnlyCallContractAllowed)
                                          else if !GrantsOk(g) then Panic(InvalidConditions)
                                          else Panic(AlreadyInstalled))
  {
  }

  /** An uninstall succeeds exactly when it is authorized and something is stored for its account and rule; then that
      entry alone is removed. */
  lemma {:induction false} UninstallExactly(s: Storage, authorized: bool, rule: ContextRule, account: Address)
    ensures var (after, r) := Apply(s, OpUninstall(authorized, rule, account));
            var k := AccountContext(account, rule.id);
            && (r.Success? <==> authorized && k in s)
            && after == (if r.Success? then s - {k} else s)
            && (r.Failure? ==> r.error == if !authorized then Trap else Panic(SmartAccountNotInstalled))
  {
  }

  /** An authorized uninstall of a key. */
  predicate Removes(op: Op, k: AccountContext) {
    op.OpUninstall? && op.authorized && AccountContext(op.account, op.rule.id) == k
  }

  // ---------- Runs ----------

  /** The store after the first `n` operations on an empty one. */
  ghost function StoreAt(ops: seq<Op>, n: nat): Storage
    requires n <= |ops|
  {
    if n == 0 then map[] else Apply(StoreAt(ops, n - 1), ops[n - 1]).0
  }

  ghost predicate StoreOk(storage: Storage) {
    forall k :: k in storage ==> GrantsOk(storage[k])
  }

  /** Every stored entry of every reachable store is well-formed: 1 to 10 functions, 1 to 5 conditions
      each, symbols and addresses compared for equality only, so the rejecting fallback of the
      equality comparison is never what decides. */
  lemma {:induction false} EveryEntryOk(ops: seq<Op>, n: nat)
    requires n <= |ops|
    ensures StoreOk(StoreAt(ops, n))
  {
    if n > 0 { EveryEntryOk(ops, n - 1); }
  }

  /** The operation that decides what is stored under a key: the last accepted install or uninstall. */
  ghost predicate Settles(ops: seq<Op>, k: AccountContext, i: nat)
    requires i < |ops|
  {
    ops[i].Key() == k && !ops[i].OpEnforce? && Apply(StoreAt(ops, i), ops[i]).1.Success?
  }

  ghost function LastSettled(ops: seq<Op>, k: AccountContext, n: nat): Option<nat>
    requires n <= |ops|
  {
    if n == 0 then None
    else if Settles(ops, k, n - 1) then Some(n - 1)
    else LastSettled(ops, k, n - 1)
  }

  ghost predicate Agree(s: Storage, t: Storage, k: AccountContext) {
    (k in s <==> k in t) && (k in s ==> s[k] == t[k])
  }

  /** An operation either settles a key or leaves it alone. */
  lemma {:induction false} SettlesOrKeeps(ops: seq<Op>, k: AccountContext, i: nat)
    requires i < |ops|
    ensures if Settles(ops, k, i)
            then StoredFrom(StoreAt(ops, i + 1), ops, k, Some(i))
            else Agree(StoreAt(ops, i), StoreAt(ops, i + 1), k)
  {
  }

  /** The key holds the grants of the install at `last`, or nothing if an uninstall or nothing is there. */
  ghost predicate StoredFrom(storage: Storage, ops: seq<Op>, k: AccountContext, last: Option<nat>) {
    && (last.Some? ==> last.value < |ops|)
    && (k in storage <==> last.Some? && ops[last.value].OpInstall?)
    && (k in storage ==> storage[k] == ops[last.value].grants)
  }

  lemma {:induction false} StoredFromKept(s: Storage, t: Storage, ops: seq<Op>, k: AccountContext, last: Option<nat>)
    requires StoredFrom(s, ops, k, last) && Agree(s, t, k)
    ensures StoredFrom(t, ops, k, last)
  {
  }

  lemma {:induction false} LastSettledStep(ops: seq<Op>, k: AccountContext, n: nat)
    requires 0 < n <= |ops|
    ensures LastSettled(ops, k, n) == if Settles(ops, k, n - 1) then Some(n - 1) else LastSettled(ops, k, n - 1)
  {
  }

  /** The inductive step, on the two stores as values. */
  lemma {:induction false} StoredStep(s: Storage, t: Storage, ops: seq<Op>, k: AccountContext, settled: bool, i: nat,
                                     earlier: Option<nat>, last: Option<nat>)
    requires StoredFrom(s, ops, k, earlier)
    requires if settled then StoredFrom(t, ops, k, Some(i)) else Agree(s, t, k)
    requires last == if settled then Some(i) else earlier
    ensures StoredFrom(t, ops, k, last)
  {
    if !settled { StoredFromKept(s, t, ops, k, earlier); }
  }

  /** What is stored under a key is what its own last successful install put there, unless a successful
      uninstall followed: no enforce, no failed call and no call for another key can touch it. */
  lemma {:induction false} StoredByLastInstall(ops: seq<Op>, k: AccountContext, n: nat)
    requires n <= |ops|
    ensures StoredFrom(StoreAt(ops, n), ops, k, LastSettled(ops, k, n))
  {
    if n > 0 {
      StoredByLastInstall(ops, k, n - 1);
      SettlesOrKeeps(ops, k, n - 1);
      LastSettledStep(ops, k, n);
      StoredStep(StoreAt(ops, n - 1), StoreAt(ops, n), ops, k, Settles(ops, k, n - 1), n - 1,
                 LastSettled(ops, k, n - 1), LastSettled(ops, k, n));
    }
  }

  /** The operations of a run that concern one key, in order. */
  ghost function Concerning(ops: seq<Op>, k: AccountContext, n: nat): (r: seq<Op>)
    requires n <= |ops|
  {
    if n == 0 then []
    else if ops[n - 1].Key() == k then Concerning(ops, k, n - 1) + [ops[n - 1]]
    else Concerning(ops, k, n - 1)
  }

  lemma {:induction false} ApplyIsLocal(s: Storage, t: Storage, op: Op, k: AccountContext)
    requires Agree(s, t, k)
    ensures op.Key() == k ==> Agree(Apply(s, op).0, Apply(t, op).0, k) && Apply(s, op).1 == Apply(t, op).1
    ensures op.Key() != k ==> Agree(Apply(s, op).0, t, k)
  {
  }

  lemma {:induction false} StorePrefix(ops: seq<Op>, op: Op, n: nat)
    requires n <= |ops|
    ensures StoreAt(ops + [op], n) == StoreAt(ops, n)
  {
    if n > 0 { StorePrefix(ops, op, n - 1); }
  }

  /** Non-interference: what a key holds after a run, and so the outcome of the next operation on it, is
      what it would be had the operations on all other keys never been made. */
  lemma {:induction false} KeysDoNotInterfere(ops: seq<Op>, k: AccountContext, n: nat, next: Op)
    requires n <= |ops| && next.Key() == k
    ensures var own := Concerning(ops, k, n);
            && Agree(StoreAt(ops, n), StoreAt(own, |own|), k)
            && Apply(StoreAt(ops, n), next).1 == Apply(StoreAt(own, |own|), next).1
  {
    var own := Concerning(ops, k, n);
    if n > 0 {
      KeysDoNotInterfere(ops, k, n - 1, next);
      var earlier := Concerning(ops, k, n - 1);
      ApplyIsLocal(StoreAt(ops, n - 1), StoreAt(earlier, |earlier|), ops[n - 1], k);
      if ops[n - 1].Key() == k { StorePrefix(earlier, ops[n - 1], |earlier|); }
    }
    ApplyIsLocal(StoreAt(ops, n), StoreAt(own, |own|), next, k);
  }

  /** In every run, what is stored under a key stays as it is, never overwritten, until an authorized uninstall of that
      key, which removes it. */
  lemma {:induction false} StoredUntilRemoved(ops: seq<Op>, k: AccountContext, n: nat, m: nat)
    requires n <= m <= |ops| && k in StoreAt(ops, n)
    ensures (forall i :: n <= i < m ==> !Removes(ops[i], k)) ==> Agree(StoreAt(ops, n), StoreAt(ops, m), k)
    decreases m - n
  {
    if n < m {
      StoredUntilRemoved(ops, k, n, m - 1);
      OneStepOnKey(ops, k, m - 1);
    }
  }

  /** What one operation can do to one key: put grants there, if none are stored and it is their authorized install;
      remove what is stored, if it is its authorized uninstall; nothing else. */
  lemma {:induction false} OneStepOnKey(ops: seq<Op>, k: AccountContext, i: nat)
    requires i < |ops|
    ensures var (before, after, op) := (StoreAt(ops, i), StoreAt(ops, i + 1), ops[i]);
            && (k in before && !Removes(op, k) ==> Agree(before, after, k))
            && (k in before && Removes(op, k) ==> k !in after)
            && (k !in before && k in after ==>
                  op.OpInstall? && op.authorized && op.rule.contextType.CallContract?
                  && AccountContext(op.account, op.rule.id) == k && GrantsOk(op.grants) && after[k] == op.grants)
  {
    match ops[i]
    case OpInstall(authorized, g, rule, account) =>
      InstallExactly(StoreAt(ops, i), authorized, g, rule, account);
    case OpUninstall(authorized, rule, account) =>
      UninstallExactly(StoreAt(ops, i), authorized, rule, account);
    case OpEnforce(_, _, _) =>
  }
}
