/** The parameter-scoped policy: per function, conditions on the arguments of a call; one set of
    conditions per (smart account, context rule). */
module Conditions {
  import opened HostTypes

  datatype Operator = Eq | Neq | Gt | Gte | Lt | Lte

  /** The six integer types, and the two types that only know equality. */
  type ExpectedValue = v: Val | !v.Opaque? witness U32(0)

  datatype Condition = Condition(argIndex: u32, operator: Operator, expected: ExpectedValue)

  datatype Error =
    | SmartAccountNotInstalled | OnlyCallContractAllowed | InvalidConditions | MethodNotAllowed
    | ConditionFailed | AlreadyInstalled | ArgumentIndexOutOfBounds

  /** A contract error, or a trap of the host because authorization is missing. */
  datatype Failure = Panic(error: Error) | Trap

  /** Conditions by function name. */
  type Grants = map<Symbol, seq<Condition>>

  const MAX_FNS := 10
  const MAX_CONDITIONS_PER_FN := 5

  // ---------- One condition ----------

  predicate Numeric(v: Val) {
    v.U32? || v.I32? || v.U64? || v.I64? || v.U128? || v.I128?
  }

  predicate SameType(a: Val, b: Val) {
    match (a, b)
    case (U32(_), U32(_)) => true
    case (I32(_), I32(_)) => true
    case (U64(_), U64(_)) => true
    case (I64(_), I64(_)) => true
    case (U128(_), U128(_)) => true
    case (I128(_), I128(_)) => true
    case (Sym(_), Sym(_)) => true
    case (Addr(_), Addr(_)) => true
    case _ => false
  }

  function Number(v: Val): int
    requires Numeric(v)
  {
    match v
    case U32(n) => n
    case I32(n) => n
    case U64(n) => n
    case I64(n) => n
    case U128(n) => n
    case I128(n) => n
  }

  /** `compare_ord` once the argument has been converted. */
  predicate CompareOrd(actual: int, expected: int, operator: Operator) {
    match operator
    case Eq => actual == expected
    case Neq => actual != expected
    case Gt => actual > expected
    case Gte => actual >= expected
    case Lt => actual < expected
    case Lte => actual <= expected
  }

  /** `compare_eq` once the argument has been converted. */
  predicate CompareEq(actual: Val, expected: Val, operator: Operator) {
    match operator
    case Eq => actual == expected
    case Neq => actual != expected
    case _ => false
  }

  /** An argument of another type fails the condition. */
  predicate Passes(actual: Val, c: Condition) {
    if !SameType(actual, c.expected) then false
    else if Numeric(c.expected) then CompareOrd(Number(actual), Number(c.expected), c.operator)
    else CompareEq(actual, c.expected, c.operator)
  }

  predicate Holds(c: Condition, args: seq<Val>) {
    c.argIndex < |args| && Passes(args[c.argIndex], c)
  }

  function ErrorOf(c: Condition, args: seq<Val>): Error {
    if c.argIndex >= |args| then ArgumentIndexOutOfBounds else ConditionFailed
  }

  // ---------- All conditions of a call ----------

  /** The error of the first condition from `i` on that does not hold. */
  function FirstFailure(cs: seq<Condition>, args: seq<Val>, i: nat): Option<Error>
    requires i <= |cs|
    decreases |cs| - i
  {
    if i == |cs| then None
    else if Holds(cs[i], args) then FirstFailure(cs, args, i + 1)
    else Some(ErrorOf(cs[i], args))
  }

  /** A call of `enforce`: whether the account authorized it, whether anyone signed, and what is called. */
  datatype Request = Request(authorized: bool, signed: bool, context: Context)

  function Judge(grants: Option<Grants>, r: Request): Result<(), Failure> {
    if !r.authorized then Failure(Trap)
    else if !r.signed then Failure(Panic(MethodNotAllowed))
    else if grants.None? then Failure(Panic(SmartAccountNotInstalled))
    else
      match r.context
      case CreateContract => Failure(Panic(MethodNotAllowed))
      case Contract(_, fnName, args) =>
        if fnName !in grants.value then Failure(Panic(MethodNotAllowed)) else
        match FirstFailure(grants.value[fnName], args, 0)
        case Some(e) => Failure(Panic(e))
        case None => Success(())
  }

  // ---------- What may be installed ----------

  predicate ConditionOk(c: Condition) {
    Numeric(c.expected) || c.operator == Eq || c.operator == Neq
  }

  predicate ConditionsOk(cs: seq<Condition>) {
    1 <= |cs| <= MAX_CONDITIONS_PER_FN && forall i :: 0 <= i < |cs| ==> ConditionOk(cs[i])
  }

  ghost predicate GrantsOk(g: Grants) {
    1 <= |g| <= MAX_FNS && forall f :: f in g ==> ConditionsOk(g[f])
  }

  // ---------- The contract ----------

  type Storage = map<AccountContext, Grants>

  /** The loop of `enforce`. */
  method EnforceConditions(cs: seq<Condition>, args: seq<Val>) returns (r: Result<(), Failure>)
    ensures r == match FirstFailure(cs, args, 0) case Some(e) => Failure(Panic(e)) case None => Success(())
  {
    for i := 0 to |cs|
      invariant FirstFailure(cs, args, i) == FirstFailure(cs, args, 0)
    {
      if cs[i].argIndex >= |args| { return Failure(Panic(ArgumentIndexOutOfBounds)); }
      if !Passes(args[cs[i].argIndex], cs[i]) { return Failure(Panic(ConditionFailed)); }
    }
    r := Success(());
  }

  /** The loops of `install`. */
  method ValidateConditions(g: Grants) returns (ok: bool)
    ensures ok <==> GrantsOk(g)
  {
    if |g| == 0 || |g| > MAX_FNS { return false; }
    var names := g.Keys;
    while names != {}
      invariant names <= g.Keys
      invariant forall f :: f in g && f !in names ==> ConditionsOk(g[f])
      decreases |names|
    {
      var f :| f in names;
      var cs := g[f];
      if |cs| == 0 || |cs| > MAX_CONDITIONS_PER_FN { return false; }
      for i := 0 to |cs|
        invariant forall j :: 0 <= j < i ==> ConditionOk(cs[j])
      {
        if (cs[i].expected.Sym? || cs[i].expected.Addr?) && cs[i].operator != Eq && cs[i].operator != Neq {
          return false;
        }
      }
      names := names - {f};
    }
    ok := true;
  }

  class ParameterScopedPolicy {
    var storage: Storage

    ghost predicate Valid()
      reads this
    {
      forall k :: k in storage ==> GrantsOk(storage[k])
    }

    constructor ()
      ensures Valid() && storage == map[]
    {
      storage := map[];
    }

    function Entry(k: AccountContext): Option<Grants>
      reads this
    {
      if k in storage then Some(storage[k]) else None
    }

    method Install(authorized: bool, g: Grants, rule: ContextRule, account: Address) returns (r: Result<(), Failure>)
      requires Valid()
      modifies this
      ensures Valid()
      ensures r == if !authorized then Failure(Trap)
                   else if !rule.contextType.CallContract? then Failure(Panic(OnlyCallContractAllowed))
                   else if !GrantsOk(g) then Failure(Panic(InvalidConditions))
                   else if AccountContext(account, rule.id) in old(storage) then Failure(Panic(AlreadyInstalled))
                   else Success(())
      ensures storage == if r.Success? then old(storage)[AccountContext(account, rule.id) := g] else old(storage)
      ensures (storage, r) == Apply(old(storage), OpInstall(authorized, g, rule, account))
    {
      if !authorized { return Failure(Trap); }
      if !rule.contextType.CallContract? { return Failure(Panic(OnlyCallContractAllowed)); }
      var ok := ValidateConditions(g);
      if !ok { return Failure(Panic(InvalidConditions)); }
      var k := AccountContext(account, rule.id);
      if k in storage { return Failure(Panic(AlreadyInstalled)); }
      storage := storage[k := g];
      r := Success(());
    }

    method Uninstall(authorized: bool, rule: ContextRule, account: Address) returns (r: Result<(), Failure>)
      requires Valid()
      modifies this
      ensures Valid()
      ensures r == if !authorized then Failure(Trap)
                   else if AccountContext(account, rule.id) !in old(storage)
                   then Failure(Panic(SmartAccountNotInstalled))
                   else Success(())
      ensures storage == if r.Success? then old(storage) - {AccountContext(account, rule.id)} else old(storage)
      ensures (storage, r) == Apply(old(storage), OpUninstall(authorized, rule, account))
    {
      if !authorized { return Failure(Trap); }
      var k := AccountContext(account, rule.id);
      if k !in storage { return Failure(Panic(SmartAccountNotInstalled)); }
      storage := storage - {k};
      r := Success(());
    }

    /** Writes nothing. */
    method Enforce(request: Request, ruleId: u32, account: Address) returns (r: Result<(), Failure>)
      requires Valid()
      ensures (storage, r) == Apply(storage, OpEnforce(request, ruleId, account))
    {
      if !request.authorized { return Failure(Trap); }
      if !request.signed { return Failure(Panic(MethodNotAllowed)); }
      var entry := Entry(AccountContext(account, ruleId));
      if entry.None? { return Failure(Panic(SmartAccountNotInstalled)); }
      match request.context {
        case CreateContract => return Failure(Panic(MethodNotAllowed));
        case Contract(_, fnName, args) =>
          if fnName !in entry.value { return Failure(Panic(MethodNotAllowed)); }
          r := EnforceConditions(entry.value[fnName], args);
      }
    }
  }

  // ---------- Operations on the store ----------

  datatype Op =
    | OpInstall(authorized: bool, grants: Grants, rule: ContextRule, account: Address)
    | OpUninstall(authorized: bool, rule: ContextRule, account: Address)
    | OpEnforce(request: Request, ruleId: u32, account: Address)
  {
    function Key(): AccountContext {
      match this
      case OpInstall(_, _, rule, account) => AccountContext(account, rule.id)
      case OpUninstall(_, rule, account) => AccountContext(account, rule.id)
      case OpEnforce(_, ruleId, account) => AccountContext(account, ruleId)
    }
  }

  ghost function Apply(storage: Storage, op: Op): (Storage, Result<(), Failure>) {
    var k := op.Key();
    match op
    case OpInstall(authorized, g, rule, _) =>
      if !authorized then (storage, Failure(Trap))
      else if !rule.contextType.CallContract? then (storage, Failure(Panic(OnlyCallContractAllowed)))
      else if !GrantsOk(g) then (storage, Failure(Panic(InvalidConditions)))
      else if k in storage then (storage, Failure(Panic(AlreadyInstalled)))
      else (storage[k := g], Success(()))
    case OpUninstall(authorized, _, _) =>
      if !authorized then (storage, Failure(Trap))
      else if k !in storage then (storage, Failure(Panic(SmartAccountNotInstalled)))
      else (storage - {k}, Success(()))
    case OpEnforce(request, _, _) =>
      (storage, Judge(if k in storage then Some(storage[k]) else None, request))
  }
}
