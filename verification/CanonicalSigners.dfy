/** Why the canonical signer list identifies a signer set: it exists exactly for lists without
    malformed or repeated signers, it is sorted, and it depends on the set alone. */
module CanonicalSigners {
  import opened HostTypes
  import opened Signers

  ghost predicate Sorted(c: seq<AccountSignerInit>) {
    forall i, j :: 0 <= i < j < |c| ==> Before(c[i], c[j])
  }

  ghost predicate Distinct(s: seq<AccountSignerInit>) {
    forall i, j :: 0 <= i < j < |s| ==> s[i] != s[j]
  }

  /** The accepted shapes, in bytes: every delegated signer, a 32-byte Ed25519 key, and a WebAuthn key of more than
      65 bytes, the first of them 0x04. */
  predicate WellShaped(s: AccountSignerInit) {
    match s
    case Delegated(_) => true
    case External(Ed25519, key) => |key| == 32
    case External(WebAuthn, key) => |key| > 65 && key[0] == 0x04
  }

  /** A malformed signer, and the error for its kind. */
  predicate MalformedAs(s: AccountSignerInit, e: FactoryError) {
    !WellShaped(s) && e == if s.signerKind.Ed25519? then InvalidEd25519Key else InvalidWebAuthnKey
  }

  lemma {:induction false} ShapeErrorExactly(s: AccountSignerInit, e: FactoryError)
    ensures ShapeError(s) == None <==> WellShaped(s)
    ensures ShapeError(s) == Some(e) <==> MalformedAs(s, e)
  {
  }

  ghost predicate ShapesOk(s: seq<AccountSignerInit>) {
    forall i :: 0 <= i < |s| ==> WellShaped(s[i])
  }

  ghost predicate SameElements(a: seq<AccountSignerInit>, b: seq<AccountSignerInit>) {
    forall x :: x in a <==> x in b
  }

  /** Into a sorted list: refused exactly when already there, otherwise sorted again with one more element. */
  lemma {:induction false} InsertSorted(c: seq<AccountSignerInit>, s: AccountSignerInit)
    requires Sorted(c)
    ensures Insert(c, s) == None <==> s in c
    ensures Insert(c, s).Some? ==>
              Sorted(Insert(c, s).value) && multiset(Insert(c, s).value) == multiset(c) + multiset{s}
  {
    if c != [] {
      assert c == [c[0]] + c[1..];
      SignersTotalOrder(c[0], s);
      if CompareSigners(c[0], s) == Less {
        InsertSorted(c[1..], s);
        if Insert(c[1..], s).Some? { ConsSorted(c[0], Insert(c[1..], s).value, c[1..], s); }
      } else if CompareSigners(c[0], s) == Greater {
        SignersTotalOrder(s, c[0]);
        AllAfter(s, c);
      }
    }
  }

  /** What comes before the head of a sorted list comes before, and differs from, all of it. */
  lemma {:induction false} AllAfter(s: AccountSignerInit, c: seq<AccountSignerInit>)
    requires Sorted(c) && c != [] && Before(s, c[0])
    ensures Sorted([s] + c) && s !in c
  {
    forall i | 0 <= i < |c| ensures Before(s, c[i]) && s != c[i] {
      if i > 0 { SignersTransitive(s, c[0], c[i]); }
      SignersTotalOrder(s, c[i]);
    }
  }

  lemma {:induction false} ConsSorted(h: AccountSignerInit, t: seq<AccountSignerInit>, c: seq<AccountSignerInit>,
                                      s: AccountSignerInit)
    requires Sorted(t) && multiset(t) == multiset(c) + multiset{s}
    requires Before(h, s) && forall i :: 0 <= i < |c| ==> Before(h, c[i])
    ensures Sorted([h] + t)
  {
    forall i | 0 <= i < |t| ensures Before(h, t[i]) {
      assert t[i] in multiset(t);
      assert t[i] in multiset(c) || t[i] == s;
    }
  }

  lemma {:induction false} DistinctPush(s: seq<AccountSignerInit>, x: AccountSignerInit)
    ensures Distinct(s + [x]) <==> Distinct(s) && x !in s
  {
    var t := s + [x];
    if Distinct(t) {
      assert forall i :: 0 <= i < |s| ==> t[i] == s[i] != t[|s|];
      assert forall i, j :: 0 <= i < j < |s| ==> t[i] != t[j];
    }
  }

  /** `canonicalize_signers` accepts exactly the lists of well-formed, distinct signers, and returns a
      strictly sorted permutation of its input. */
  lemma {:induction false} CanonicalizeExactly(signers: seq<AccountSignerInit>, n: nat)
    requires n <= |signers|
    ensures Canonicalize(signers, n).Success? <==> ShapesOk(signers[..n]) && Distinct(signers[..n])
    ensures Canonicalize(signers, n).Success? ==>
              var c := Canonicalize(signers, n).value;
              Sorted(c) && multiset(c) == multiset(signers[..n])
  {
    if n > 0 {
      CanonicalizeExactly(signers, n - 1);
      var front, x := signers[..n - 1], signers[n - 1];
      assert signers[..n] == front + [x];
      DistinctPush(front, x);
      assert ShapesOk(front + [x]) <==> ShapesOk(front) && WellShaped(x);
      if Canonicalize(signers, n - 1).Success? {
        var c := Canonicalize(signers, n - 1).value;
        InsertSorted(c, x);
        assert x in c <==> x in multiset(c);
        assert x in front <==> x in multiset(front);
      }
    }
  }

  /** A strictly sorted list is determined by its elements. */
  lemma {:induction false} SortedIsUnique(a: seq<AccountSignerInit>, b: seq<AccountSignerInit>)
    requires Sorted(a) && Sorted(b) && SameElements(a, b)
    ensures a == b
  {
    assert b != [] ==> b[0] in b;
    if a != [] {
      assert a[0] in b;
      HeadIsLeast(a, b);
      HeadIsLeast(b, a);
      SignersTotalOrder(a[0], b[0]);
      TailElements(a, b);
      SortedIsUnique(a[1..], b[1..]);
      assert a == [a[0]] + a[1..] && b == [b[0]] + b[1..];
    }
  }

  lemma {:induction false} HeadIsLeast(a: seq<AccountSignerInit>, b: seq<AccountSignerInit>)
    requires Sorted(a) && a != [] && b != [] && b[0] in a
    ensures a[0] == b[0] || Before(a[0], b[0])
  {
  }

  lemma {:induction false} TailElements(a: seq<AccountSignerInit>, b: seq<AccountSignerInit>)
    requires Sorted(a) && Sorted(b) && SameElements(a, b) && a != [] && b != [] && a[0] == b[0]
    ensures SameElements(a[1..], b[1..])
  {
    HeadNotInTail(a);
    HeadNotInTail(b);
    assert forall x :: x in a <==> x == a[0] || x in a[1..];
    assert forall x :: x in b <==> x == b[0] || x in b[1..];
  }

  lemma {:induction false} HeadNotInTail(a: seq<AccountSignerInit>)
    requires Sorted(a) && a != []
    ensures a[0] !in a[1..]
  {
    forall i | 1 <= i < |a| ensures a[i] != a[0] {
      SignersTotalOrder(a[0], a[i]);
    }
  }

  /** Two accepted lists have the same canonical form exactly when they hold the same signers. */
  lemma {:induction false} CanonicalFormIdentifiesSet(p: seq<AccountSignerInit>, q: seq<AccountSignerInit>)
    requires Canonicalize(p, |p|).Success? && Canonicalize(q, |q|).Success?
    ensures Canonicalize(p, |p|) == Canonicalize(q, |q|) <==> SameElements(p, q)
  {
    CanonicalizeExactly(p, |p|);
    CanonicalizeExactly(q, |q|);
    assert p[..|p|] == p && q[..|q|] == q;
    var (c, d) := (Canonicalize(p, |p|).value, Canonicalize(q, |q|).value);
    SameMultiset(p, c);
    SameMultiset(q, d);
    if SameElements(p, q) { SortedIsUnique(c, d); }
  }

  lemma {:induction false} SameMultiset(a: seq<AccountSignerInit>, b: seq<AccountSignerInit>)
    requires multiset(a) == multiset(b)
    ensures SameElements(a, b)
  {
    forall x ensures x in a <==> x in b {
      assert x in a <==> x in multiset(a);
      assert x in b <==> x in multiset(b);
    }
  }

  lemma {:induction false} DistinctByCount(s: seq<AccountSignerInit>)
    ensures Distinct(s) <==> forall x :: multiset(s)[x] <= 1
  {
    if s != [] {
      var n := |s| - 1;
      var front, x := s[..n], s[n];
      assert s == front + [x];
      DistinctByCount(front);
      DistinctPush(front, x);
      assert multiset(s) == multiset(front) + multiset{x};
      assert x in front <==> x in multiset(front);
      assert multiset(s)[x] == multiset(front)[x] + 1;
      assert forall y :: multiset(front)[y] <= multiset(s)[y];
    }
  }

  /** The order of the signers does not matter: every permutation is accepted or refused alike, and an
      accepted one has the identical canonical list. */
  lemma {:induction false} OrderDoesNotMatter(p: seq<AccountSignerInit>, q: seq<AccountSignerInit>)
    requires multiset(p) == multiset(q)
    ensures Canonicalize(p, |p|).Success? <==> Canonicalize(q, |q|).Success?
    ensures Canonicalize(p, |p|).Success? ==> Canonicalize(p, |p|) == Canonicalize(q, |q|)
  {
    CanonicalizeExactly(p, |p|);
    CanonicalizeExactly(q, |q|);
    assert p[..|p|] == p && q[..|q|] == q;
    DistinctByCount(p);
    DistinctByCount(q);
    SameMultiset(p, q);
    assert ShapesOk(p) <==> forall x :: x in p ==> WellShaped(x);
    assert ShapesOk(q) <==> forall x :: x in q ==> WellShaped(x);
    if Canonicalize(p, |p|).Success? { CanonicalFormIdentifiesSet(p, q); }
  }

  // ---------- Which error refuses a list ----------

  /** What is wrong with a list, each error on its own: a malformed signer of a kind, or a well-formed
      signer that occurs twice. */
  ghost predicate Offends(p: seq<AccountSignerInit>, e: FactoryError) {
    || (exists s :: s in p && MalformedAs(s, e))
    || (e == DuplicateSigner && exists s :: s in p && WellShaped(s) && multiset(p)[s] >= 2)
  }

  /** At most one kind of thing is wrong. */
  ghost predicate OneOffenceAtMost(p: seq<AccountSignerInit>) {
    forall e, f :: Offends(p, e) && Offends(p, f) ==> e == f
  }

  ghost predicate Permutation(p: seq<AccountSignerInit>, q: seq<AccountSignerInit>) {
    multiset(p) == multiset(q)
  }

  lemma {:induction false} OffendsPermuted(p: seq<AccountSignerInit>, q: seq<AccountSignerInit>, e: FactoryError)
    requires Permutation(p, q) && Offends(p, e)
    ensures Offends(q, e)
  {
    SameMultiset(p, q);
  }

  lemma {:induction false} OffendsLonger(p: seq<AccountSignerInit>, n: nat, e: FactoryError)
    requires n <= |p| && Offends(p[..n], e)
    ensures Offends(p, e)
  {
    assert p == p[..n] + p[n..];
    assert forall s :: s in p[..n] ==> s in p;
    assert forall s :: multiset(p)[s] == multiset(p[..n])[s] + multiset(p[n..])[s];
  }

  /** Adding a signer to a list that was fine so far fails only for what is wrong with the longer list. */
  lemma {:induction false} NextIsOffence(front: seq<AccountSignerInit>, x: AccountSignerInit)
    requires Canonicalize(front, |front|).Success?
    requires InsertNext(Canonicalize(front, |front|).value, x).Failure?
    ensures Offends(front + [x], InsertNext(Canonicalize(front, |front|).value, x).error)
  {
    var p := front + [x];
    assert p[|front|] == x;
    if WellShaped(x) {
      CanonicalizeExactly(front, |front|);
      assert front[..|front|] == front;
      InsertSorted(Canonicalize(front, |front|).value, x);
      assert x in multiset(Canonicalize(front, |front|).value);
      assert multiset(p)[x] >= 2;
    } else {
      assert MalformedAs(x, ShapeError(x).value);
    }
  }

  lemma {:induction false} CanonicalizePrefix(p: seq<AccountSignerInit>, m: nat, n: nat)
    requires n <= m <= |p|
    ensures Canonicalize(p[..m], n) == Canonicalize(p, n)
  {
    if n > 0 { CanonicalizePrefix(p, m, n - 1); }
  }

  /** A refusal names something that is wrong with the list. */
  lemma {:induction false} RefusalIsOffence(p: seq<AccountSignerInit>, n: nat)
    requires n <= |p| && Canonicalize(p, n).Failure?
    ensures Offends(p, Canonicalize(p, n).error)
  {
    if Canonicalize(p, n - 1).Failure? {
      RefusalIsOffence(p, n - 1);
    } else {
      CanonicalizePrefix(p, n - 1, n - 1);
      NextIsOffence(p[..n - 1], p[n - 1]);
      assert p[..n] == p[..n - 1] + [p[n - 1]];
      OffendsLonger(p, n, Canonicalize(p, n).error);
    }
  }

  /** Any element of a list can be moved to its front. */
  lemma {:induction false} MoveToFront(p: seq<AccountSignerInit>, s: AccountSignerInit)
    returns (rest: seq<AccountSignerInit>)
    requires s in p
    ensures Permutation(p, [s] + rest)
    ensures forall x :: multiset(rest)[x] == multiset(p)[x] - if x == s then 1 else 0
  {
    var i :| 0 <= i < |p| && p[i] == s;
    rest := p[..i] + p[i + 1..];
    assert p == p[..i] + ([s] + p[i + 1..]);
    assert multiset([s] + rest) == multiset{s} + multiset(p[..i]) + multiset(p[i + 1..]);
    assert multiset(p) == multiset(p[..i]) + (multiset{s} + multiset(p[i + 1..]));
    assert multiset(p) == multiset{s} + multiset(rest);
  }

  /** Whatever is wrong, some order of the signers is refused for it. */
  lemma {:induction false} OffenceRefusesSomeOrder(p: seq<AccountSignerInit>, e: FactoryError)
    returns (q: seq<AccountSignerInit>)
    requires Offends(p, e)
    ensures Permutation(p, q) && Canonicalize(q, |q|) == Failure(e)
  {
    if s :| s in p && MalformedAs(s, e) {
      var rest := MoveToFront(p, s);
      q := [s] + rest;
      MalformedFirst(s, rest, e);
    } else {
      var s :| s in p && WellShaped(s) && multiset(p)[s] >= 2;
      var rest := MoveToFront(p, s);
      assert s in multiset(rest);
      var others := MoveToFront(rest, s);
      q := [s] + ([s] + others);
      assert multiset(q) == multiset{s} + multiset([s] + others);
      assert multiset([s] + rest) == multiset{s} + multiset(rest);
      RepeatedFirst(s, others);
    }
  }

  lemma {:induction false} MalformedFirst(s: AccountSignerInit, rest: seq<AccountSignerInit>, e: FactoryError)
    requires MalformedAs(s, e)
    ensures Canonicalize([s] + rest, |[s] + rest|) == Failure(e)
  {
    var q := [s] + rest;
    ShapeErrorExactly(s, e);
    assert Canonicalize(q, 1) == Failure(e);
    FailureStays(q, 1, |q|);
  }

  lemma {:induction false} RepeatedFirst(s: AccountSignerInit, others: seq<AccountSignerInit>)
    requires WellShaped(s)
    ensures var q := [s] + ([s] + others); Canonicalize(q, |q|) == Failure(DuplicateSigner)
  {
    var q := [s] + ([s] + others);
    SignersTotalOrder(s, s);
    assert q[0] == s && q[1] == s;
    assert Canonicalize(q, 1) == Success([s]);
    assert Canonicalize(q, 2) == Failure(DuplicateSigner);
    FailureStays(q, 2, |q|);
  }

  /** The errors that the orders of a list are refused with are exactly the things wrong with it. */
  lemma {:induction false} RefusedForExactly(p: seq<AccountSignerInit>, e: FactoryError)
    ensures (exists q :: Permutation(p, q) && Canonicalize(q, |q|) == Failure(e)) <==> Offends(p, e)
  {
    if Offends(p, e) {
      var q := OffenceRefusesSomeOrder(p, e);
    } else if q :| Permutation(p, q) && Canonicalize(q, |q|) == Failure(e) {
      RefusalIsOffence(q, |q|);
      OffendsPermuted(q, p, e);
    }
  }

  /** Exactly when the outcome, error included, does not depend on the order of the signers: when at most
      one kind of thing is wrong with them. */
  lemma {:induction false} OutcomeOrderFreeExactly(p: seq<AccountSignerInit>)
    ensures (forall q :: Permutation(p, q) ==> Canonicalize(q, |q|) == Canonicalize(p, |p|)) <==> OneOffenceAtMost(p)
  {
    if OneOffenceAtMost(p) {
      forall q | Permutation(p, q) ensures Canonicalize(q, |q|) == Canonicalize(p, |p|) {
        OrderDoesNotMatter(p, q);
        if Canonicalize(p, |p|).Failure? {
          RefusalIsOffence(p, |p|);
          RefusalIsOffence(q, |q|);
          OffendsPermuted(q, p, Canonicalize(q, |q|).error);
        }
      }
    } else {
      var e, f :| Offends(p, e) && Offends(p, f) && e != f;
      var q := OffenceRefusesSomeOrder(p, e);
      var r := OffenceRefusesSomeOrder(p, f);
      assert Permutation(p, q) && Permutation(p, r);
    }
  }

  /** For instance: a repeated signer and a malformed one. */
  lemma {:induction false} ErrorDependsOnOrder()
    ensures var (s, bad) := (Delegated(Address(0)), External(Ed25519, []));
            && Canonicalize([s, s, bad], 3) == Failure(DuplicateSigner)
            && Canonicalize([bad, s, s], 3) == Failure(InvalidEd25519Key)
            && Permutation([s, s, bad], [bad, s, s])
  {
    var (s, bad) := (Delegated(Address(0)), External(Ed25519, []));
    assert Canonicalize([s, s, bad], 1) == Success([s]);
    assert Canonicalize([s, s, bad], 2) == Failure(DuplicateSigner);
    assert Canonicalize([bad, s, s], 1) == Failure(InvalidEd25519Key);
    assert Canonicalize([bad, s, s], 2) == Failure(InvalidEd25519Key);
  }
}
