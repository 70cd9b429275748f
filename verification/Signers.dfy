/** Account signers: their shape check, their total order, and the insertion sort that makes a
    signer list canonical. */
module Signers {
  import opened HostTypes

  datatype SignerKind = Ed25519 | WebAuthn

  datatype AccountSignerInit =
    | Delegated(address: Address)
    | External(signerKind: SignerKind, keyData: Bytes)

  datatype FactoryError =
    | AlreadyInitialized | MissingConfig | NoSigners | DuplicateSigner | MissingThreshold
    | InvalidThreshold | InvalidEd25519Key | InvalidWebAuthnKey | InvalidEd25519Verifier
    | InvalidWebAuthnVerifier | InvalidThresholdPolicy

  datatype Ordering = Less | Equal | Greater {
    function ThenWith(next: Ordering): Ordering { if Equal? then next else this }
  }

  // ---------- Order ----------

  function CompareInt(a: int, b: int): Ordering {
    if a < b then Less else if a == b then Equal else Greater
  }

  /** Lexicographic order of byte strings; a proper prefix comes first. */
  function CompareBytes(a: seq<u8>, b: seq<u8>): Ordering {
    if a == [] && b == [] then Equal
    else if a == [] then Less
    else if b == [] then Greater
    else if a[0] != b[0] then CompareInt(a[0], b[0])
    else CompareBytes(a[1..], b[1..])
  }

  function SignerKindCode(kind: SignerKind): u8 {
    match kind
    case Ed25519 => 0x01
    case WebAuthn => 0x02
  }

  function AccountSignerCode(s: AccountSignerInit): u8 {
    match s
    case Delegated(_) => 0x00
    case External(kind, _) => SignerKindCode(kind)
  }

  function CompareSigners(l: AccountSignerInit, r: AccountSignerInit): Ordering {
    CompareInt(AccountSignerCode(l), AccountSignerCode(r)).ThenWith(
      match (l, r)
      case (Delegated(a), Delegated(b)) => CompareInt(a.rank, b.rank)
      case (External(lk, ld), External(rk, rd)) =>
        CompareInt(SignerKindCode(lk), SignerKindCode(rk)).ThenWith(CompareBytes(ld, rd))
      case _ => Equal)
  }

  /** The order that the sort relies on is total. */
  lemma {:induction false} BytesTotalOrder(a: seq<u8>, b: seq<u8>)
    ensures CompareBytes(a, b) == Equal <==> a == b
    ensures CompareBytes(a, b) == Less <==> CompareBytes(b, a) == Greater
  {
    if a != [] && b != [] && a[0] == b[0] {
      BytesTotalOrder(a[1..], b[1..]);
      assert a == [a[0]] + a[1..] && b == [b[0]] + b[1..];
    }
  }

  /** What the comparison of byte strings means: the first difference decides. */
  lemma {:induction false} BytesLexicographic(a: seq<u8>, b: seq<u8>)
    ensures CompareBytes(a, b) == Less
       <==> exists k :: 0 <= k <= |a| && k < |b| && a[..k] == b[..k] && (k == |a| || a[k] < b[k])
  {
    if a != [] && b != [] {
      if a[0] == b[0] {
        BytesLexicographic(a[1..], b[1..]);
        if CompareBytes(a, b) == Less {
          var k :| 0 <= k <= |a[1..]| && k < |b[1..]| && a[1..][..k] == b[1..][..k]
                   && (k == |a[1..]| || a[1..][k] < b[1..][k]);
          FirstDifferenceShifts(a, b, k);
        }
        if k :| 0 <= k <= |a| && k < |b| && a[..k] == b[..k] && (k == |a| || a[k] < b[k]) {
          FirstDifferenceShiftsBack(a, b, k);
        }
      } else if k :| 0 <= k <= |a| && k < |b| && a[..k] == b[..k] && (k == |a| || a[k] < b[k]) {
        SamePrefixSameHead(a, b, k);
      } else {
        assert a[..0] == b[..0];
      }
    } else if b != [] {
      assert a[..0] == b[..0];
    }
  }

  lemma {:induction false} SamePrefixSameHead(a: seq<u8>, b: seq<u8>, k: nat)
    requires k <= |a| && k <= |b| && a[..k] == b[..k]
    ensures k > 0 ==> a[0] == b[0]
  {
    if k > 0 { assert a[0] == a[..k][0] && b[0] == b[..k][0]; }
  }

  lemma {:induction false} FirstDifferenceShifts(a: seq<u8>, b: seq<u8>, k: nat)
    requires a != [] && b != [] && a[0] == b[0]
    requires k <= |a[1..]| && k < |b[1..]| && a[1..][..k] == b[1..][..k] && (k == |a[1..]| || a[1..][k] < b[1..][k])
    ensures a[..k + 1] == b[..k + 1] && (k + 1 == |a| || a[k + 1] < b[k + 1])
  {
    assert a[..k + 1] == [a[0]] + a[1..][..k] && b[..k + 1] == [b[0]] + b[1..][..k];
  }

  lemma {:induction false} FirstDifferenceShiftsBack(a: seq<u8>, b: seq<u8>, k: nat)
    requires a != [] && b != [] && a[0] == b[0]
    requires k <= |a| && k < |b| && a[..k] == b[..k] && (k == |a| || a[k] < b[k])
    ensures k > 0 && a[1..][..k - 1] == b[1..][..k - 1] && (k - 1 == |a[1..]| || a[1..][k - 1] < b[1..][k - 1])
  {
    assert a[1..][..k - 1] == a[..k][1..] && b[1..][..k - 1] == b[..k][1..];
  }

  lemma {:induction false} BytesTransitive(a: seq<u8>, b: seq<u8>, c: seq<u8>)
    requires CompareBytes(a, b) == Less && CompareBytes(b, c) == Less
    ensures CompareBytes(a, c) == Less
  {
    if a != [] && a[0] == b[0] == c[0] { BytesTransitive(a[1..], b[1..], c[1..]); }
  }

  predicate Before(l: AccountSignerInit, r: AccountSignerInit) {
    CompareSigners(l, r) == Less
  }

  lemma {:induction false} SignersTotalOrder(l: AccountSignerInit, r: AccountSignerInit)
    ensures CompareSigners(l, r) == Equal <==> l == r
    ensures CompareSigners(l, r) == Less <==> CompareSigners(r, l) == Greater
  {
    if l.External? && r.External? { BytesTotalOrder(l.keyData, r.keyData); }
  }

  /** The canonical order: delegated signers by address, then Ed25519 keys, then WebAuthn keys, each by key bytes. */
  lemma {:induction false} CanonicalOrder(l: AccountSignerInit, r: AccountSignerInit)
    ensures Before(l, r) <==>
              match (l, r)
              case (Delegated(a), Delegated(b)) => a.rank < b.rank
              case (Delegated(_), External(_, _)) => true
              case (External(_, _), Delegated(_)) => false
              case (External(Ed25519, _), External(WebAuthn, _)) => true
              case (External(WebAuthn, _), External(Ed25519, _)) => false
              case (External(_, a), External(_, b)) =>
                exists k :: 0 <= k <= |a| && k < |b| && a[..k] == b[..k] && (k == |a| || a[k] < b[k])
  {
    if l.External? && r.External? { BytesLexicographic(l.keyData, r.keyData); }
  }

  lemma {:induction false} SignersTransitive(a: AccountSignerInit, b: AccountSignerInit, c: AccountSignerInit)
    requires Before(a, b) && Before(b, c)
    ensures Before(a, c)
  {
    if a.External? && b.External? && c.External? && a.signerKind == b.signerKind == c.signerKind {
      BytesTransitive(a.keyData, b.keyData, c.keyData);
    }
  }

  // ---------- Shape ----------

  function ShapeError(s: AccountSignerInit): Option<FactoryError> {
    match s
    case Delegated(_) => None
    case External(Ed25519, key) => if |key| != 32 then Some(InvalidEd25519Key) else None
    case External(WebAuthn, key) => if |key| <= 65 || key[0] != 0x04 then Some(InvalidWebAuthnKey) else None
  }

  // ---------- Canonical form ----------

  function Prepend(s: AccountSignerInit, rest: Option<seq<AccountSignerInit>>): Option<seq<AccountSignerInit>> {
    match rest
    case None => None
    case Some(t) => Some([s] + t)
  }

  /** Inserts `s` before the first greater element; None when an equal one comes first. */
  function Insert(canonical: seq<AccountSignerInit>, s: AccountSignerInit): (r: Option<seq<AccountSignerInit>>)
    ensures r.Some? ==> |r.value| == |canonical| + 1
  {
    if canonical == [] then Some([s]) else
    match CompareSigners(canonical[0], s)
    case Equal => None
    case Greater => Some([s] + canonical)
    case Less => Prepend(canonical[0], Insert(canonical[1..], s))
  }

  function InsertNext(canonical: seq<AccountSignerInit>, s: AccountSignerInit)
    : Result<seq<AccountSignerInit>, FactoryError>
  {
    if ShapeError(s).Some? then Failure(ShapeError(s).value) else
    match Insert(canonical, s)
    case None => Failure(DuplicateSigner)
    case Some(next) => Success(next)
  }

  /** The first `n` signers, sorted; or the error of the first one that is malformed or repeated. */
  function Canonicalize(signers: seq<AccountSignerInit>, n: nat): (r: Result<seq<AccountSignerInit>, FactoryError>)
    requires n <= |signers|
    ensures r.Success? ==> |r.value| == n
  {
    if n == 0 then Success([]) else
    match Canonicalize(signers, n - 1)
    case Failure(e) => Failure(e)
    case Success(canonical) => InsertNext(canonical, signers[n - 1])
  }

  /** `canonicalize_signers`. */
  method CanonicalizeSigners(signers: seq<AccountSignerInit>) returns (r: Result<seq<AccountSignerInit>, FactoryError>)
    ensures r == Canonicalize(signers, |signers|)
  {
    var canonical: seq<AccountSignerInit> := [];
    for i := 0 to |signers|
      invariant Canonicalize(signers, i) == Success(canonical)
    {
      var signer := signers[i];
      var shape := ShapeError(signer);
      if shape.Some? {
        FailureStays(signers, i + 1, |signers|);
        return Failure(shape.value);
      }
      var next := InsertSigner(canonical, signer);
      if next.None? {
        FailureStays(signers, i + 1, |signers|);
        return Failure(DuplicateSigner);
      }
      canonical := next.value;
    }
    r := Success(canonical);
  }

  /** Its inner loop: walks past the smaller signers, and inserts before the first greater one or at the end. */
  method InsertSigner(before: seq<AccountSignerInit>, signer: AccountSignerInit)
    returns (r: Option<seq<AccountSignerInit>>)
    ensures r == Insert(before, signer)
  {
    var canonical := before;
    var inserted := false;
    var idx := 0;
    assert before[..0] == [] && before[0..] == before;
    PrependNothing(Insert(before, signer));
    while idx < |canonical|
      invariant 0 <= idx <= |canonical| && canonical == before && !inserted
      invariant Insert(before, signer) == PrependAll(before[..idx], Insert(before[idx..], signer))
    {
      InsertDown(before, idx, signer);
      match CompareSigners(canonical[idx], signer) {
        case Equal =>
          return None;
        case Greater =>
          canonical := canonical[..idx] + [signer] + canonical[idx..];
          assert canonical == before[..idx] + ([signer] + before[idx..]);
          inserted := true;
          break;
        case Less =>
          idx := idx + 1;
      }
    }
    if !inserted {
      assert before[..idx] == before;
      canonical := canonical + [signer];
    }
    r := Some(canonical);
  }

  ghost function PrependAll(front: seq<AccountSignerInit>, rest: Option<seq<AccountSignerInit>>)
    : Option<seq<AccountSignerInit>>
  {
    match rest
    case None => None
    case Some(t) => Some(front + t)
  }

  lemma {:induction false} PrependNothing(rest: Option<seq<AccountSignerInit>>)
    ensures PrependAll([], rest) == rest
  {
    if rest.Some? { assert [] + rest.value == rest.value; }
  }

  /** One turn of the inner loop. */
  lemma {:induction false} InsertDown(before: seq<AccountSignerInit>, idx: nat, s: AccountSignerInit)
    requires idx < |before|
    ensures CompareSigners(before[idx], s) == Less ==>
              PrependAll(before[..idx], Insert(before[idx..], s))
              == PrependAll(before[..idx + 1], Insert(before[idx + 1..], s))
    ensures CompareSigners(before[idx], s) == Equal ==> Insert(before[idx..], s) == None
    ensures CompareSigners(before[idx], s) == Greater ==> Insert(before[idx..], s) == Some([s] + before[idx..])
  {
    assert before[idx..][0] == before[idx] && before[idx..][1..] == before[idx + 1..];
    assert before[..idx + 1] == before[..idx] + [before[idx]];
    if Insert(before[idx + 1..], s).Some? {
      var t := Insert(before[idx + 1..], s).value;
      assert before[..idx] + ([before[idx]] + t) == before[..idx + 1] + t;
    }
  }

  lemma {:induction false} FailureStays(signers: seq<AccountSignerInit>, n: nat, m: nat)
    requires n <= m <= |signers| && Canonicalize(signers, n).Failure?
    ensures Canonicalize(signers, m) == Canonicalize(signers, n)
    decreases m - n
  {
    if n < m { FailureStays(signers, n, m - 1); }
  }
}
