/** The byte string that is hashed into an account's deploy salt, and a parser that reads it back. */
module SaltPreimage {
  import opened Arithmetic
  import opened HostTypes
  import opened Signers

  /** The host functions the factory calls. `xdr` serializes an address, `sha256` hashes, and
      `deployedAddress` is the address the factory deploys to under a salt. */
  datatype Host = Host(
    xdr: Address -> Bytes,
    sha256: seq<u8> -> Bytes32,
    deployedAddress: Bytes32 -> Address)

  datatype NormalizedParams = NormalizedParams(
    signers: Vec<AccountSignerInit>,
    effectiveThreshold: u32,
    accountSalt: Bytes32)

  /** "latch.factory.account.v2" in ASCII. */
  const TAG: seq<u8> := [0x6c, 0x61, 0x74, 0x63, 0x68, 0x2e,
                         0x66, 0x61, 0x63, 0x74, 0x6f, 0x72, 0x79, 0x2e,
                         0x61, 0x63, 0x63, 0x6f, 0x75, 0x6e, 0x74, 0x2e, 0x76, 0x32]

  /** `u32::to_be_bytes`. */
  function BigEndian(n: u32): seq<u8> {
    var high := n / 0x100;
    var higher := high / 0x100;
    [higher / 0x100, higher % 0x100, high % 0x100, n % 0x100]
  }

  function FromBigEndian(b: seq<u8>): u32
    requires |b| == 4
  {
    var (w: int, x: int, y: int, z: int) := (b[0], b[1], b[2], b[3]);
    ((w * 0x100 + x) * 0x100 + y) * 0x100 + z
  }

  /** One signer as it appears in the preimage. */
  datatype Record = Record(code: u8, data: Bytes)

  function RecordOf(xdr: Address -> Bytes, s: AccountSignerInit): Record {
    match s
    case Delegated(address) => Record(AccountSignerCode(s), xdr(address))
    case External(_, keyData) => Record(AccountSignerCode(s), keyData)
  }

  function RecordsOf(xdr: Address -> Bytes, signers: seq<AccountSignerInit>): seq<Record> {
    seq(|signers|, i requires 0 <= i < |signers| => RecordOf(xdr, signers[i]))
  }

  function EncodeRecord(r: Record): seq<u8> {
    [r.code] + BigEndian(|r.data|) + r.data
  }

  function EncodeRecords(rs: seq<Record>): seq<u8> {
    if rs == [] then [] else EncodeRecord(rs[0]) + EncodeRecords(rs[1..])
  }

  /** What a preimage says. */
  datatype Fields = Fields(accountSalt: Bytes32, records: Vec<Record>, threshold: u32)

  function Encode(f: Fields): seq<u8> {
    TAG + f.accountSalt + BigEndian(|f.records|) + EncodeRecords(f.records) + BigEndian(f.threshold)
  }

  function FieldsOf(xdr: Address -> Bytes, p: NormalizedParams): Fields {
    Fields(p.accountSalt, RecordsOf(xdr, p.signers), p.effectiveThreshold)
  }

  function Preimage(h: Host, p: NormalizedParams): seq<u8> {
    Encode(FieldsOf(h.xdr, p))
  }

  // ---------- The bytes, spelled out ----------

  function Ascii(text: string): seq<u8>
    requires forall i :: 0 <= i < |text| ==> text[i] as int < 128
  {
    seq(|text|, i requires 0 <= i < |text| => text[i] as int)
  }

  lemma {:induction false} TagIsAscii()
    ensures TAG == Ascii("latch.factory.account.v2")
  {
  }

  /** Most significant byte first. */
  lemma {:induction false} BigEndianBytes(n: u32)
    ensures var b := BigEndian(n);
            && |b| == 4
            && (b[0] as int) * 0x100_0000 + (b[1] as int) * 0x1_0000 + (b[2] as int) * 0x100 + (b[3] as int) == n
  {
  }

  /** A signer's record: 0x00, 0x01 or 0x02 for its kind, the length of its data, then the serialized address or the
      key itself. */
  lemma {:induction false} RecordBytes(xdr: Address -> Bytes, s: AccountSignerInit)
    ensures EncodeRecord(RecordOf(xdr, s))
         == match s
            case Delegated(address) => [0x00] + BigEndian(|xdr(address)|) + xdr(address)
            case External(Ed25519, key) => [0x01] + BigEndian(|key|) + key
            case External(WebAuthn, key) => [0x02] + BigEndian(|key|) + key
  {
  }

  /** Where everything lies: the tag, the account salt, the number of signers, the records, and in the last four
      bytes the threshold. */
  lemma {:induction false} PreimageLayout(h: Host, p: NormalizedParams)
    ensures var b := Preimage(h, p);
            && |b| >= 64
            && b[..24] == Ascii("latch.factory.account.v2")
            && b[24..56] == p.accountSalt
            && b[56..60] == BigEndian(|p.signers|)
            && b[60..|b| - 4] == EncodeRecords(RecordsOf(h.xdr, p.signers))
            && b[|b| - 4..] == BigEndian(p.effectiveThreshold)
  {
    TagIsAscii();
  }

  /** The records follow one another in the order of the signers. */
  lemma {:induction false} RecordsInOrder(xdr: Address -> Bytes, signers: seq<AccountSignerInit>)
    ensures EncodeRecords(RecordsOf(xdr, signers))
         == if signers == [] then []
            else EncodeRecord(RecordOf(xdr, signers[0])) + EncodeRecords(RecordsOf(xdr, signers[1..]))
  {
    if signers != [] {
      assert RecordsOf(xdr, signers)[1..] == RecordsOf(xdr, signers[1..]);
    }
  }

  // ---------- The parser ----------

  /** Reads `n` records; the rest of the bytes is returned with them. */
  function ParseRecords(b: seq<u8>, n: nat): Option<(seq<Record>, seq<u8>)> {
    if n == 0 then Some(([], b)) else
    if |b| < 5 then None else
    var length := FromBigEndian(b[1..5]);
    if |b| < 5 + length then None else
    match ParseRecords(b[5 + length..], n - 1)
    case None => None
    case Some((rs, rest)) => Some(([Record(b[0], b[5..5 + length])] + rs, rest))
  }

  function Parse(b: seq<u8>): Option<Fields> {
    if |b| < 60 || b[..24] != TAG then None else
    match ParseRecords(b[60..], FromBigEndian(b[56..60]))
    case None => None
    case Some((rs, rest)) =>
      if |rest| != 4 || |rs| > U32_MAX then None else
      Some(Fields(b[24..56], rs, FromBigEndian(rest)))
  }

  lemma {:induction false} BigEndianRoundTrip(n: u32)
    ensures FromBigEndian(BigEndian(n)) == n
  {
  }

  lemma {:induction false} FromBigEndianRoundTrip(b: seq<u8>)
    requires |b| == 4
    ensures BigEndian(FromBigEndian(b)) == b
  {
    var (w: int, x: int, y: int, z: int) := (b[0], b[1], b[2], b[3]);
    var higher := w * 0x100 + x;
    var high := higher * 0x100 + y;
    assert FromBigEndian(b) / 0x100 == high && FromBigEndian(b) % 0x100 == z;
    assert high / 0x100 == higher && high % 0x100 == y;
    assert higher / 0x100 == w && higher % 0x100 == x;
  }

  /** Where the parts of a record lie in what follows its encoding. */
  lemma {:induction false} RecordLayout(r: Record, more: seq<u8>)
    ensures var b := EncodeRecord(r) + more;
            && |b| >= 5 + |r.data| && b[0] == r.code && FromBigEndian(b[1..5]) == |r.data|
            && b[5..5 + |r.data|] == r.data && b[5 + |r.data|..] == more
  {
    var b := EncodeRecord(r) + more;
    assert b[1..5] == BigEndian(|r.data|);
    BigEndianRoundTrip(|r.data|);
  }

  /** What was written is read back, and reading stops where writing did. */
  lemma {:induction false} RecordsRoundTrip(rs: seq<Record>, tail: seq<u8>)
    ensures ParseRecords(EncodeRecords(rs) + tail, |rs|) == Some((rs, tail))
  {
    if rs == [] {
      assert EncodeRecords(rs) + tail == tail;
    } else {
      var more := EncodeRecords(rs[1..]) + tail;
      assert EncodeRecords(rs) + tail == EncodeRecord(rs[0]) + more;
      RecordLayout(rs[0], more);
      RecordsRoundTrip(rs[1..], tail);
      assert [rs[0]] + rs[1..] == rs;
    }
  }

  /** The parser recovers the fields of every preimage. */
  lemma {:induction false} PreimageRoundTrip(f: Fields)
    ensures Parse(Encode(f)) == Some(f)
  {
    var b := Encode(f);
    var tail := EncodeRecords(f.records) + BigEndian(f.threshold);
    assert b == TAG + f.accountSalt + BigEndian(|f.records|) + tail;
    assert b[..24] == TAG && b[24..56] == f.accountSalt;
    assert b[56..60] == BigEndian(|f.records|) && b[60..] == tail;
    BigEndianRoundTrip(|f.records|);
    RecordsRoundTrip(f.records, BigEndian(f.threshold));
    BigEndianRoundTrip(f.threshold);
  }

  /** The five-byte header and the data of the first record, as the parser cuts them. */
  lemma {:induction false} CutRecord(b: seq<u8>)
    requires |b| >= 5 && |b| >= 5 + FromBigEndian(b[1..5])
    ensures var length := FromBigEndian(b[1..5]);
            b == EncodeRecord(Record(b[0], b[5..5 + length])) + b[5 + length..]
  {
    FromBigEndianRoundTrip(b[1..5]);
    var length := FromBigEndian(b[1..5]);
    assert b == [b[0]] + b[1..5] + b[5..5 + length] + b[5 + length..];
  }

  lemma {:induction false} EncodeCons(r: Record, rs: seq<Record>, rest: seq<u8>)
    ensures EncodeRecords([r] + rs) + rest == EncodeRecord(r) + (EncodeRecords(rs) + rest)
  {
    assert ([r] + rs)[1..] == rs;
  }

  lemma {:induction false} ParsedRecordsEncode(b: seq<u8>, n: nat)
    requires ParseRecords(b, n).Some?
    ensures |ParseRecords(b, n).value.0| == n
    ensures b == EncodeRecords(ParseRecords(b, n).value.0) + ParseRecords(b, n).value.1
  {
    if n == 0 {
      assert [] + b == b;
    } else {
      var length := FromBigEndian(b[1..5]);
      var more := b[5 + length..];
      CutRecord(b);
      ParsedRecordsEncode(more, n - 1);
      var (rs, rest) := ParseRecords(more, n - 1).value;
      EncodeCons(Record(b[0], b[5..5 + length]), rs, rest);
    }
  }

  /** The parser accepts nothing but preimages: whatever it reads encodes back to the same bytes. */
  lemma {:induction false} ParseAcceptsOnlyPreimages(b: seq<u8>)
    requires Parse(b).Some?
    ensures Encode(Parse(b).value) == b
  {
    var (head, count, body) := (b[24..56], b[56..60], b[60..]);
    FromBigEndianRoundTrip(count);
    ParsedRecordsEncode(body, FromBigEndian(count));
    var rest := ParseRecords(body, FromBigEndian(count)).value.1;
    FromBigEndianRoundTrip(rest);
    CutHeader(b);
  }

  lemma {:induction false} CutHeader(b: seq<u8>)
    requires |b| >= 60
    ensures b == b[..24] + b[24..56] + b[56..60] + b[60..]
  {
  }

  // ---------- Injectivity ----------

  ghost predicate XdrInjective(xdr: Address -> Bytes) {
    forall a, b :: xdr(a) == xdr(b) ==> a == b
  }

  /** The base-256 digits of a number, the last `k` of them. */
  function Digits(n: nat, k: nat): (d: seq<u8>)
    ensures |d| == k
  {
    if k == 0 then [] else Digits(n / 0x100, k - 1) + [n % 0x100]
  }

  function Pow256(k: nat): nat {
    if k == 0 then 1 else 0x100 * Pow256(k - 1)
  }

  lemma {:induction false} Pow256Sum(k: nat, m: nat)
    ensures Pow256(k + m) == Pow256(k) * Pow256(m)
  {
    if k > 0 {
      Pow256Sum(k - 1, m);
      MulAssociative(0x100, Pow256(k - 1), Pow256(m));
    }
  }

  lemma {:induction false} AddressesFit()
    ensures Pow256(33) == ADDRESS_COUNT
  {
    assert Pow256(3) == 0x100_0000;
    assert Pow256(2) == 0x1_0000;
    Pow256Sum(3, 3);
    Pow256Sum(6, 2);
    Pow256Sum(8, 8);
    Pow256Sum(16, 16);
    Pow256Sum(32, 1);
  }

  lemma {:induction false} DigitsInjective(n: nat, m: nat, k: nat)
    requires n < Pow256(k) && m < Pow256(k) && Digits(n, k) == Digits(m, k)
    ensures n == m
  {
    if k > 0 {
      var (d, e) := (Digits(n, k), Digits(m, k));
      assert d[k - 1] == n % 0x100 && e[k - 1] == m % 0x100;
      assert d[..k - 1] == Digits(n / 0x100, k - 1) && e[..k - 1] == Digits(m / 0x100, k - 1);
      DigitsInjective(n / 0x100, m / 0x100, k - 1);
    }
  }

  /** Injective serializations exist: 33 bytes tell all addresses apart. */
  lemma {:induction false} InjectiveXdrExists()
    ensures exists xdr: Address -> Bytes :: XdrInjective(xdr)
  {
    var xdr: Address -> Bytes := (a: Address) => Digits(a.rank, 33);
    AddressesFit();
    forall a, b | xdr(a) == xdr(b) ensures a == b {
      DigitsInjective(a.rank, b.rank, 33);
    }
    assert XdrInjective(xdr);
  }

  lemma {:induction false} RecordIdentifiesSigner(xdr: Address -> Bytes, s: AccountSignerInit, t: AccountSignerInit)
    requires XdrInjective(xdr) && RecordOf(xdr, s) == RecordOf(xdr, t)
    ensures s == t
  {
  }

  /** Different parameters have different preimages, for signer lists of any length. */
  lemma {:induction false} PreimageInjective(h: Host, p: NormalizedParams, q: NormalizedParams)
    requires XdrInjective(h.xdr) && Preimage(h, p) == Preimage(h, q)
    ensures p == q
  {
    PreimageRoundTrip(FieldsOf(h.xdr, p));
    PreimageRoundTrip(FieldsOf(h.xdr, q));
    var (rs, ts) := (RecordsOf(h.xdr, p.signers), RecordsOf(h.xdr, q.signers));
    assert rs == ts;
    forall i | 0 <= i < |p.signers| ensures p.signers[i] == q.signers[i] {
      assert rs[i] == ts[i];
      RecordIdentifiesSigner(h.xdr, p.signers[i], q.signers[i]);
    }
  }

  // ---------- Building it ----------

  /** Appending the next record leaves one record less to come. */
  lemma {:induction false} EncodeFront(before: seq<u8>, records: seq<Record>, i: nat)
    requires i < |records|
    ensures before + EncodeRecord(records[i]) + EncodeRecords(records[i + 1..]) == before + EncodeRecords(records[i..])
  {
    assert records[i..][0] == records[i] && records[i..][1..] == records[i + 1..];
  }

  /** `compute_account_deploy_salt`: the preimage grows in a buffer, then is hashed. */
  method ComputeAccountDeploySalt(h: Host, params: NormalizedParams) returns (salt: Bytes32)
    ensures salt == h.sha256(Preimage(h, params))
  {
    var preimage: seq<u8> := TAG;
    preimage := preimage + params.accountSalt;
    preimage := preimage + BigEndian(|params.signers|);
    ghost var head := preimage;
    ghost var records: seq<Record> := RecordsOf(h.xdr, params.signers);
    for i := 0 to |params.signers|
      invariant preimage + EncodeRecords(records[i..]) == head + EncodeRecords(records)
    {
      var signer := params.signers[i];
      ghost var before := preimage;
      preimage := preimage + [AccountSignerCode(signer)];
      match signer {
        case Delegated(address) =>
          var encoded := h.xdr(address);
          preimage := preimage + BigEndian(|encoded|);
          preimage := preimage + encoded;
        case External(_, keyData) =>
          preimage := preimage + BigEndian(|keyData|);
          preimage := preimage + keyData;
      }
      assert preimage == before + EncodeRecord(records[i]);
      EncodeFront(before, records, i);
    }
    assert preimage == head + EncodeRecords(records);
    preimage := preimage + BigEndian(params.effectiveThreshold);
    salt := h.sha256(preimage);
  }
}
