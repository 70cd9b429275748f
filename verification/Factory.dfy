/** The account factory: parameters are normalized, the address is derived from them, and the account
    is deployed there once. */
module Factory {
  import opened HostTypes
  import opened Signers
  import opened CanonicalSigners
  import opened SaltPreimage

  datatype FactoryConfig = FactoryConfig(
    smartAccountWasmHash: Bytes32,
    ed25519Verifier: Address,
    webauthnVerifier: Address,
    thresholdPolicy: Address)

  datatype AccountInitParams = AccountInitParams(
    signers: Vec<AccountSignerInit>,
    threshold: Option<u32>,
    accountSalt: Bytes32)

  /** A factory error, or a trap of the host while deploying; either way nothing changes. */
  datatype Failure = Panic(error: FactoryError) | Trap

  // ---------- Normalization ----------

  function NormalizeParams(p: AccountInitParams): Result<NormalizedParams, FactoryError> {
    if p.signers == [] then Failure(NoSigners) else
    match Canonicalize(p.signers, |p.signers|)
    case Failure(e) => Failure(e)
    case Success(canonical) =>
      match (|canonical| == 1, p.threshold)
      case (true, None) => Success(NormalizedParams(canonical, 1, p.accountSalt))
      case (true, Some(t)) =>
        if t == 1 then Success(NormalizedParams(canonical, 1, p.accountSalt)) else Failure(InvalidThreshold)
      case (false, Some(t)) =>
        if 1 <= t <= |canonical| then Success(NormalizedParams(canonical, t, p.accountSalt))
        else Failure(InvalidThreshold)
      case (false, None) => Failure(MissingThreshold)
  }

  /** What `NormalizeParams` accepts. */
  ghost predicate WellFormed(p: AccountInitParams) {
    && p.signers != [] && ShapesOk(p.signers) && Distinct(p.signers)
    && match p.threshold
       case None => |p.signers| == 1
       case Some(t) => 1 <= t <= |p.signers|
  }

  /** How many signers the account will need. */
  function EffectiveThreshold(p: AccountInitParams): u32 {
    match p.threshold
    case None => 1
    case Some(t) => t
  }

  lemma {:induction false} NormalizeExactly(p: AccountInitParams)
    ensures NormalizeParams(p).Success? <==> WellFormed(p)
    ensures WellFormed(p) ==>
              var n := NormalizeParams(p).value;
              && Canonicalize(p.signers, |p.signers|) == Success(n.signers)
              && Sorted(n.signers) && multiset(n.signers) == multiset(p.signers)
              && n.effectiveThreshold == EffectiveThreshold(p) && 1 <= n.effectiveThreshold <= |n.signers|
              && n.accountSalt == p.accountSalt
    ensures !WellFormed(p) ==>
              NormalizeParams(p) == Failure(if p.signers == [] then NoSigners
                                            else if Canonicalize(p.signers, |p.signers|).Failure?
                                            then Canonicalize(p.signers, |p.signers|).error
                                            else if p.threshold.None? then MissingThreshold
                                            else InvalidThreshold)
  {
    CanonicalizeExactly(p.signers, |p.signers|);
    assert p.signers[..|p.signers|] == p.signers;
  }

  /** Normalization depends on the signers through their canonical list alone. */
  lemma {:induction false} NormalizeFollows(p: AccountInitParams, q: Vec<AccountSignerInit>)
    requires Permutation(p.signers, q) && Canonicalize(q, |q|) == Canonicalize(p.signers, |p.signers|)
    ensures NormalizeParams(p.(signers := q)) == NormalizeParams(p)
  {
    assert |q| == |multiset(q)| == |p.signers|;
  }

  lemma {:induction false} NormalizeRefusesSomeOrder(p: AccountInitParams, e: FactoryError)
    returns (q: Vec<AccountSignerInit>)
    requires Offends(p.signers, e)
    ensures Permutation(p.signers, q) && NormalizeParams(p.(signers := q)) == Failure(e)
  {
    var order := OffenceRefusesSomeOrder(p.signers, e);
    assert |order| == |multiset(order)| == |p.signers|;
    q := order;
  }

  /** Normalization as a whole treats every order of the signers alike, error included, exactly when at most
      one kind of thing is wrong with them. */
  lemma {:induction false} NormalizeOrderFreeExactly(p: AccountInitParams)
    ensures (forall q: Vec<AccountSignerInit> ::
               Permutation(p.signers, q) ==> NormalizeParams(p.(signers := q)) == NormalizeParams(p))
            <==> OneOffenceAtMost(p.signers)
  {
    if OneOffenceAtMost(p.signers) {
      OutcomeOrderFreeExactly(p.signers);
      forall q: Vec<AccountSignerInit> | Permutation(p.signers, q)
        ensures NormalizeParams(p.(signers := q)) == NormalizeParams(p)
      {
        NormalizeFollows(p, q);
      }
    } else {
      var e, f :| Offends(p.signers, e) && Offends(p.signers, f) && e != f;
      var q := NormalizeRefusesSomeOrder(p, e);
      var r := NormalizeRefusesSomeOrder(p, f);
    }
  }

  // ---------- Addresses ----------

  function AddressOf(h: Host, n: NormalizedParams): Address {
    h.deployedAddress(h.sha256(Preimage(h, n)))
  }

  function AccountAddress(h: Host, p: AccountInitParams): Result<Address, FactoryError> {
    match NormalizeParams(p)
    case Failure(e) => Failure(e)
    case Success(n) => Success(AddressOf(h, n))
  }

  /** The same logical account: same signers in any order, same effective threshold, same salt. */
  ghost predicate SameAccount(p: AccountInitParams, q: AccountInitParams) {
    && SameElements(p.signers, q.signers)
    && EffectiveThreshold(p) == EffectiveThreshold(q)
    && p.accountSalt == q.accountSalt
  }

  /** Two different preimages with one SHA-256 digest, or two different digests deployed to one address. */
  ghost predicate Collide(h: Host, n: NormalizedParams, m: NormalizedParams) {
    var (x, y) := (Preimage(h, n), Preimage(h, m));
    || (x != y && h.sha256(x) == h.sha256(y))
    || (h.sha256(x) != h.sha256(y) && h.deployedAddress(h.sha256(x)) == h.deployedAddress(h.sha256(y)))
  }

  lemma {:induction false} SameAccountExactly(p: AccountInitParams, q: AccountInitParams)
    requires WellFormed(p) && WellFormed(q)
    ensures NormalizeParams(p) == NormalizeParams(q) <==> SameAccount(p, q)
  {
    NormalizeExactly(p);
    NormalizeExactly(q);
    CanonicalFormIdentifiesSet(p.signers, q.signers);
  }

  /** Factory identity: two accepted parameter sets derive one address exactly when they describe the same
      logical account, collisions of the hash aside. */
  lemma {:induction false} SameAddressExactly(h: Host, p: AccountInitParams, q: AccountInitParams)
    requires XdrInjective(h.xdr)
    requires NormalizeParams(p).Success? && NormalizeParams(q).Success?
    ensures AccountAddress(h, p) == AccountAddress(h, q)
       <==> SameAccount(p, q) || Collide(h, NormalizeParams(p).value, NormalizeParams(q).value)
  {
    NormalizeExactly(p);
    NormalizeExactly(q);
    SameAccountExactly(p, q);
    var (n, m) := (NormalizeParams(p).value, NormalizeParams(q).value);
    if Preimage(h, n) == Preimage(h, m) { PreimageInjective(h, n, m); }
  }

  // ---------- The deployed account ----------

  datatype AccountSigner =
    | DelegatedSigner(address: Address)
    | ExternalSigner(verifier: Address, keyData: Bytes)

  datatype Account = Account(wasmHash: Bytes32, signers: seq<AccountSigner>, policies: map<Address, u32>)

  function TranslateSigner(config: FactoryConfig, s: AccountSignerInit): AccountSigner {
    match s
    case Delegated(address) => DelegatedSigner(address)
    case External(Ed25519, key) => ExternalSigner(config.ed25519Verifier, key)
    case External(WebAuthn, key) => ExternalSigner(config.webauthnVerifier, key)
  }

  function AccountSigners(config: FactoryConfig, signers: seq<AccountSignerInit>): seq<AccountSigner> {
    seq(|signers|, i requires 0 <= i < |signers| => TranslateSigner(config, signers[i]))
  }

  function AccountPolicies(config: FactoryConfig, threshold: u32, signerCount: nat): map<Address, u32> {
    if signerCount > 1 then map[config.thresholdPolicy := threshold] else map[]
  }

  function BuildAccount(config: FactoryConfig, n: NormalizedParams): Account {
    Account(config.smartAccountWasmHash, AccountSigners(config, n.signers),
            AccountPolicies(config, n.effectiveThreshold, |n.signers|))
  }

  /** Signers stay apart even when both verifier addresses coincide: key lengths tell the kinds apart. */
  lemma {:induction false} TranslationInjective(config: FactoryConfig, s: AccountSignerInit, t: AccountSignerInit)
    requires WellShaped(s) && WellShaped(t)
    requires TranslateSigner(config, s) == TranslateSigner(config, t)
    ensures s == t
  {
  }

  /** The account is what its parameters say: one translated signer for each canonical one, in order; a
      policy exactly from two signers on, with a threshold they can reach; and no two accepted parameter
      sets share a signer list without naming the same signers, nor policies without the same threshold. */
  lemma {:induction false} AccountFaithful(config: FactoryConfig, p: AccountInitParams, q: AccountInitParams)
    requires NormalizeParams(p).Success? && NormalizeParams(q).Success?
    ensures var (n, a) := (NormalizeParams(p).value, BuildAccount(config, NormalizeParams(p).value));
            && a.wasmHash == config.smartAccountWasmHash && |a.signers| == |p.signers|
            && (forall i :: 0 <= i < |a.signers| ==>
                  match n.signers[i]
                  case Delegated(address) => a.signers[i] == DelegatedSigner(address)
                  case External(Ed25519, key) => a.signers[i] == ExternalSigner(config.ed25519Verifier, key)
                  case External(WebAuthn, key) => a.signers[i] == ExternalSigner(config.webauthnVerifier, key))
            && (a.policies != map[] <==> |p.signers| >= 2)
            && (|p.signers| >= 2 ==> a.policies == map[config.thresholdPolicy := EffectiveThreshold(p)]
                                     && 1 <= EffectiveThreshold(p) <= |p.signers|)
    ensures BuildAccount(config, NormalizeParams(p).value) == BuildAccount(config, NormalizeParams(q).value)
       <==> SameElements(p.signers, q.signers) && EffectiveThreshold(p) == EffectiveThreshold(q)
  {
    NormalizeExactly(p);
    NormalizeExactly(q);
    var (n, m) := (NormalizeParams(p).value, NormalizeParams(q).value);
    var (a, b) := (BuildAccount(config, n), BuildAccount(config, m));
    assert |p.signers| >= 2 ==> config.thresholdPolicy in a.policies;
    CanonicalFormIdentifiesSet(p.signers, q.signers);
    if a == b {
      SignersIdentified(config, n.signers, p.signers, m.signers, q.signers);
      if |p.signers| >= 2 { assert a.policies[config.thresholdPolicy] == b.policies[config.thresholdPolicy]; }
    }
  }

  lemma {:induction false} SignersIdentified(config: FactoryConfig,
      c: seq<AccountSignerInit>, p: seq<AccountSignerInit>, d: seq<AccountSignerInit>, q: seq<AccountSignerInit>)
    requires multiset(c) == multiset(p) && ShapesOk(p) && multiset(d) == multiset(q) && ShapesOk(q)
    requires AccountSigners(config, c) == AccountSigners(config, d)
    ensures c == d
  {
    var (s, t) := (AccountSigners(config, c), AccountSigners(config, d));
    assert |c| == |s| == |t| == |d|;
    forall i | 0 <= i < |c| ensures c[i] == d[i] {
      assert c[i] in multiset(c) && d[i] in multiset(d);
      assert c[i] in p && d[i] in q;
      assert s[i] == t[i];
      TranslationInjective(config, c[i], d[i]);
    }
  }

  // ---------- One call ----------

  /** The accounts deployed by the factory, and the addresses it has announced. */
  datatype Chain = Chain(accounts: map<Address, Account>, announced: seq<Address>)

  /** A `create_account` call; `deployWorks` is whether the account's own constructor goes through. */
  datatype Call = Call(params: AccountInitParams, deployWorks: bool)

  function Create(h: Host, config: FactoryConfig, chain: Chain, call: Call): (Chain, Result<Address, Failure>) {
    match NormalizeParams(call.params)
    case Failure(e) => (chain, Failure(Panic(e)))
    case Success(n) =>
      var address := AddressOf(h, n);
      if address in chain.accounts then (chain, Success(address))
      else if !call.deployWorks then (chain, Failure(Trap))
      else (Chain(chain.accounts[address := BuildAccount(config, n)], chain.announced + [address]), Success(address))
  }

  // ---------- The contract ----------

  /** `build_account_signers`. */
  method BuildAccountSigners(config: FactoryConfig, signers: seq<AccountSignerInit>)
    returns (accountSigners: seq<AccountSigner>)
    ensures accountSigners == AccountSigners(config, signers)
  {
    accountSigners := [];
    for i := 0 to |signers|
      invariant accountSigners == AccountSigners(config, signers)[..i]
    {
      match signers[i] {
        case Delegated(address) =>
          accountSigners := accountSigners + [DelegatedSigner(address)];
        case External(kind, key) =>
          var verifier := match kind case Ed25519 => config.ed25519Verifier case WebAuthn => config.webauthnVerifier;
          accountSigners := accountSigners + [ExternalSigner(verifier, key)];
      }
    }
  }

  /** `build_account_policies`. */
  method BuildAccountPolicies(config: FactoryConfig, threshold: u32, signerCount: nat)
    returns (policies: map<Address, u32>)
    ensures policies == AccountPolicies(config, threshold, signerCount)
  {
    policies := map[];
    if signerCount > 1 { policies := policies[config.thresholdPolicy := threshold]; }
  }

  /** `normalize_params`. */
  method Normalize(p: AccountInitParams) returns (r: Result<NormalizedParams, FactoryError>)
    ensures r == NormalizeParams(p)
  {
    if p.signers == [] { return Failure(NoSigners); }
    var canonical := CanonicalizeSigners(p.signers);
    if canonical.Failure? { return Failure(canonical.error); }
    var signerCount := |canonical.value|;
    var effectiveThreshold: u32;
    if signerCount == 1 {
      if p.threshold != None && p.threshold != Some(1) { return Failure(InvalidThreshold); }
      effectiveThreshold := 1;
    } else {
      if p.threshold.None? { return Failure(MissingThreshold); }
      if p.threshold.value < 1 || p.threshold.value > signerCount { return Failure(InvalidThreshold); }
      effectiveThreshold := p.threshold.value;
    }
    r := Success(NormalizedParams(canonical.value, effectiveThreshold, p.accountSalt));
  }

  class FactoryContract {
    const host: Host
    var config: Option<FactoryConfig>
    var accounts: map<Address, Account>
    var announced: seq<Address>

    constructor (host: Host)
      ensures this.host == host && config == None && accounts == map[] && announced == []
    {
      this.host := host;
      config, accounts, announced := None, map[], [];
    }

    /** `__constructor`; `code` holds the addresses that have code deployed. */
    method Initialize(cfg: FactoryConfig, code: set<Address>) returns (r: Result<(), FactoryError>)
      modifies this`config
      ensures r.Success? <==> old(config).None?
                              && {cfg.ed25519Verifier, cfg.webauthnVerifier, cfg.thresholdPolicy} <= code
      ensures config == if r.Success? then Some(cfg) else old(config)
      ensures r.Failure? ==> r.error == if old(config).Some? then AlreadyInitialized
                                        else if cfg.ed25519Verifier !in code then InvalidEd25519Verifier
                                        else if cfg.webauthnVerifier !in code then InvalidWebAuthnVerifier
                                        else InvalidThresholdPolicy
    {
      if config.Some? { return Failure(AlreadyInitialized); }
      if cfg.ed25519Verifier !in code { return Failure(InvalidEd25519Verifier); }
      if cfg.webauthnVerifier !in code { return Failure(InvalidWebAuthnVerifier); }
      if cfg.thresholdPolicy !in code { return Failure(InvalidThresholdPolicy); }
      config := Some(cfg);
      r := Success(());
    }

    /** Does not read the configuration: the address depends on the parameters alone. */
    method GetAccountAddress(params: AccountInitParams) returns (r: Result<Address, FactoryError>)
      ensures r == AccountAddress(host, params)
    {
      var normalized := Normalize(params);
      if normalized.Failure? { return Failure(normalized.error); }
      var salt := ComputeAccountDeploySalt(host, normalized.value);
      r := Success(host.deployedAddress(salt));
    }

    method CreateAccount(call: Call) returns (r: Result<Address, Failure>)
      modifies this`accounts, this`announced
      ensures config.None? ==>
                r == Failure(Panic(MissingConfig)) && accounts == old(accounts) && announced == old(announced)
      ensures config.Some? ==>
                (Chain(accounts, announced), r)
                == Create(host, config.value, Chain(old(accounts), old(announced)), call)
    {
      if config.None? { return Failure(Panic(MissingConfig)); }
      var cfg := config.value;
      var normalized := Normalize(call.params);
      if normalized.Failure? { return Failure(Panic(normalized.error)); }
      var n := normalized.value;
      var salt := ComputeAccountDeploySalt(host, n);
      var address := host.deployedAddress(salt);
      if address in accounts { return Success(address); }

      var signers := BuildAccountSigners(cfg, n.signers);
      var policies := BuildAccountPolicies(cfg, n.effectiveThreshold, |signers|);
      if !call.deployWorks { return Failure(Trap); }
      accounts := accounts[address := Account(cfg.smartAccountWasmHash, signers, policies)];
      announced := announced + [address];
      r := Success(address);
    }
  }

  // ---------- Runs ----------

  /** The chain after the first `n` calls to a fresh factory. */
  function ChainAt(h: Host, config: FactoryConfig, calls: seq<Call>, n: nat): Chain
    requires n <= |calls|
  {
    if n == 0 then Chain(map[], []) else Create(h, config, ChainAt(h, config, calls, n - 1), calls[n - 1]).0
  }

  function ReturnedAt(h: Host, config: FactoryConfig, calls: seq<Call>, i: nat): Result<Address, Failure>
    requires i < |calls|
  {
    Create(h, config, ChainAt(h, config, calls, i), calls[i]).1
  }

  /** A call returns the predicted address, or fails as the prediction does; once the parameters are accepted
      it fails only where nothing is deployed yet and the deployment traps. On success an account is there. */
  lemma {:induction false} ReturnsPredicted(h: Host, config: FactoryConfig, calls: seq<Call>, i: nat)
    requires i < |calls|
    ensures var (r, predicted) := (ReturnedAt(h, config, calls, i), AccountAddress(h, calls[i].params));
            && (predicted.Failure? ==> r == Failure(Panic(predicted.error)))
            && (predicted.Success? ==>
                  r == if calls[i].deployWorks || predicted.value in ChainAt(h, config, calls, i).accounts
                       then Success(predicted.value) else Failure(Trap))
            && (r.Success? ==> r.value in ChainAt(h, config, calls, i + 1).accounts)
            && (r.Failure? ==> ChainAt(h, config, calls, i + 1) == ChainAt(h, config, calls, i))
  {
  }

  ghost predicate Once(s: seq<Address>) {
    forall i, j :: 0 <= i < j < |s| ==> s[i] != s[j]
  }

  /** Each address is announced at most once, exactly when it is deployed. */
  lemma {:induction false} AnnouncedOnce(h: Host, config: FactoryConfig, calls: seq<Call>, n: nat)
    requires n <= |calls|
    ensures var chain := ChainAt(h, config, calls, n);
            Once(chain.announced) && forall a :: a in chain.announced <==> a in chain.accounts
  {
    if n > 0 { AnnouncedOnce(h, config, calls, n - 1); }
  }

  /** Deployed accounts are never replaced, and announcements never withdrawn. */
  lemma {:induction false} DeployedForGood(h: Host, config: FactoryConfig, calls: seq<Call>, n: nat, m: nat)
    requires n <= m <= |calls|
    ensures var (before, after) := (ChainAt(h, config, calls, n), ChainAt(h, config, calls, m));
            && before.announced <= after.announced
            && forall a :: a in before.accounts ==> a in after.accounts && after.accounts[a] == before.accounts[a]
    decreases m - n
  {
    if n < m { DeployedForGood(h, config, calls, n, m - 1); }
  }

  /** Every account on the chain was built by some accepted call of the run. */
  ghost predicate BuiltBy(h: Host, config: FactoryConfig, calls: seq<Call>, n: nat, a: Address, account: Account)
    requires n <= |calls|
  {
    exists i :: 0 <= i < n && NormalizeParams(calls[i].params).Success?
                && AddressOf(h, NormalizeParams(calls[i].params).value) == a
                && BuildAccount(config, NormalizeParams(calls[i].params).value) == account
  }

  lemma {:induction false} EveryAccountBuilt(h: Host, config: FactoryConfig, calls: seq<Call>, n: nat, a: Address)
    requires n <= |calls| && a in ChainAt(h, config, calls, n).accounts
    ensures BuiltBy(h, config, calls, n, a, ChainAt(h, config, calls, n).accounts[a])
  {
    var before := ChainAt(h, config, calls, n - 1);
    if a in before.accounts {
      EveryAccountBuilt(h, config, calls, n - 1, a);
      var i :| 0 <= i < n - 1 && NormalizeParams(calls[i].params).Success?
               && AddressOf(h, NormalizeParams(calls[i].params).value) == a
               && BuildAccount(config, NormalizeParams(calls[i].params).value) == before.accounts[a];
    }
  }

  /** Whoever deployed first: at the address that accepted parameters derive stands exactly the account these
      parameters would have built, unless one of the run's calls collides with them. */
  lemma {:induction false} InstalledAsBuilt(h: Host, config: FactoryConfig, calls: seq<Call>, n: nat,
                                           q: AccountInitParams)
    requires XdrInjective(h.xdr) && n <= |calls| && NormalizeParams(q).Success?
    requires forall i :: 0 <= i < n && NormalizeParams(calls[i].params).Success? ==>
               !Collide(h, NormalizeParams(calls[i].params).value, NormalizeParams(q).value)
    requires AddressOf(h, NormalizeParams(q).value) in ChainAt(h, config, calls, n).accounts
    ensures ChainAt(h, config, calls, n).accounts[AddressOf(h, NormalizeParams(q).value)]
         == BuildAccount(config, NormalizeParams(q).value)
  {
    var m := NormalizeParams(q).value;
    var a := AddressOf(h, m);
    EveryAccountBuilt(h, config, calls, n, a);
    var i :| 0 <= i < n && NormalizeParams(calls[i].params).Success?
             && AddressOf(h, NormalizeParams(calls[i].params).value) == a
             && BuildAccount(config, NormalizeParams(calls[i].params).value)
                == ChainAt(h, config, calls, n).accounts[a];
    PreimageInjective(h, NormalizeParams(calls[i].params).value, m);
  }
}
