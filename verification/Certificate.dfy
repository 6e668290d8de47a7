/**
  The self-signed certificate (section 4.1 of RFC 5280) and the private key wrapper (section 5 of RFC 5208)
  as trees of values, and their builders. Key, signature and clock come from outside.
 */
module Certificate {
  import opened Prelude
  import Binary
  import opened Der

  // ----- Times: section 4.1.2.5.1 of RFC 5280 -----

  datatype Date = Date(year: nat, month: nat, day: nat, hour: nat, minute: nat, second: nat)

  /** The ranges of a broken-down time whose year count from 1900 is not negative. */
  predicate Plausible(d: Date) {
    d.year >= 1900 && d.month < 100 && d.day < 100 && d.hour < 100 && d.minute < 100 && d.second < 100
  }

  function Two(n: nat): (s: seq<byte>)
    requires n < 100
    ensures |s| == 2
  {
    [(48 + n / 10) as byte, (48 + n % 10) as byte]
  }

  function UtcTime(d: Date): (s: seq<byte>)
    requires Plausible(d)
    ensures |s| == 13
  {
    Two((d.year - 1900) % 100) + Two(d.month) + Two(d.day) + Two(d.hour) + Two(d.minute) + Two(d.second) + [0x5a]
  }

  function ReadTwo(s: seq<byte>, at: nat): Option<nat>
    requires at + 2 <= |s|
  {
    var a, b := s[at] as int - 48, s[at + 1] as int - 48;
    if 0 <= a < 10 && 0 <= b < 10 then Some(10 * a + b) else None
  }

  /** Two-digit years from 50 on are in the twentieth century. */
  function ReadUtcTime(s: seq<byte>): Option<Date> {
    if |s| != 13 || s[12] != 0x5a then None
    else
      match (ReadTwo(s, 0), ReadTwo(s, 2), ReadTwo(s, 4), ReadTwo(s, 6), ReadTwo(s, 8), ReadTwo(s, 10))
      case (Some(yy), Some(month), Some(day), Some(hour), Some(minute), Some(second)) =>
        Some(Date(if yy >= 50 then 1900 + yy else 2000 + yy, month, day, hour, minute, second))
      case _ => None
  }

  lemma TwoReads(s: seq<byte>, at: nat, n: nat)
    requires n < 100 && at + 2 <= |s| && s[at] == Two(n)[0] && s[at + 1] == Two(n)[1]
    ensures ReadTwo(s, at) == Some(n)
  {
  }

  /** A time reads back as itself exactly from 1950 to 2049. */
  lemma UtcRoundTrip(d: Date)
    requires Plausible(d)
    ensures ReadUtcTime(UtcTime(d)) == Some(d) <==> 1950 <= d.year < 2050
  {
    var s := UtcTime(d);
    var yy := (d.year - 1900) % 100;
    TwoReads(s, 0, yy);
    TwoReads(s, 2, d.month);
    TwoReads(s, 4, d.day);
    TwoReads(s, 6, d.hour);
    TwoReads(s, 8, d.minute);
    TwoReads(s, 10, d.second);
    assert yy >= 50 && 1950 <= d.year < 2050 ==> d.year == 1900 + yy;
    assert yy < 50 && 1950 <= d.year < 2050 ==> d.year == 2000 + yy;
  }

  /** The first second of 2050 reads back as that of 1950. */
  lemma MidCenturyWraps()
    ensures ReadUtcTime(UtcTime(Date(2050, 1, 1, 0, 0, 0))) == Some(Date(1950, 1, 1, 0, 0, 0))
  {
    var d := Date(2050, 1, 1, 0, 0, 0);
    var s := UtcTime(d);
    TwoReads(s, 0, 50);
    TwoReads(s, 2, 1);
    TwoReads(s, 4, 1);
    TwoReads(s, 6, 0);
    TwoReads(s, 8, 0);
    TwoReads(s, 10, 0);
  }

  // ----- Trees -----

  const COUNTRY: seq<byte> := [0x55, 0x04, 0x06]
  const ORGANIZATION: seq<byte> := [0x55, 0x04, 0x0a]
  const COMMON_NAME: seq<byte> := [0x55, 0x04, 0x03]
  const RSA_ENCRYPTION: seq<byte> := [0x2a, 0x86, 0x48, 0x86, 0xf7, 0x0d, 0x01, 0x01, 0x01]
  const SHA256_WITH_RSA: seq<byte> := [0x2a, 0x86, 0x48, 0x86, 0xf7, 0x0d, 0x01, 0x01, 0x0b]

  // "CA", "Frida" and "lolcathost"
  const CA: seq<byte> := [0x43, 0x41]
  const FRIDA: seq<byte> := [0x46, 0x72, 0x69, 0x64, 0x61]
  const LOLCATHOST: seq<byte> := [0x6c, 0x6f, 0x6c, 0x63, 0x61, 0x74, 0x68, 0x6f, 0x73, 0x74]

  function One(a: Node): List<Node> { Cons(a, Nil) }

  function Pair(a: Node, b: Node): List<Node> { Cons(a, One(b)) }

  function Triple(a: Node, b: Node, c: Node): List<Node> { Cons(a, Pair(b, c)) }

  function Sequence(children: List<Node>): Node { Branch(0x30, children) }

  function BitString(bytes: seq<byte>): Node { Leaf(0x03, [0] + bytes) }

  function Algorithm(oid: seq<byte>): Node {
    Sequence(Pair(Leaf(0x06, oid), Leaf(0x05, [])))
  }

  function Rdn(oid: seq<byte>, tag: byte, value: seq<byte>): Node {
    Branch(0x31, One(Sequence(Pair(Leaf(0x06, oid), Leaf(tag, value)))))
  }

  function Name(): Node {
    Sequence(Triple(Rdn(COUNTRY, 0x13, CA), Rdn(ORGANIZATION, 0x0c, FRIDA), Rdn(COMMON_NAME, 0x0c, LOLCATHOST)))
  }

  function Validity(notBefore: Date, notAfter: Date): Node
    requires Plausible(notBefore) && Plausible(notAfter)
  {
    Sequence(Pair(Leaf(0x17, UtcTime(notBefore)), Leaf(0x17, UtcTime(notAfter))))
  }

  function SubjectPublicKeyInfo(key: seq<byte>): Node {
    Sequence(Pair(Algorithm(RSA_ENCRYPTION), BitString(key)))
  }

  /** Serial number, signature algorithm, issuer, validity, subject, key. */
  function Tbs(key: seq<byte>, notBefore: Date, notAfter: Date): Node
    requires Plausible(notBefore) && Plausible(notAfter)
  {
    Sequence(Cons(Leaf(0x02, Integer(1)), Cons(Algorithm(SHA256_WITH_RSA), Cons(Name(),
      Triple(Validity(notBefore, notAfter), Name(), SubjectPublicKeyInfo(key))))))
  }

  function SignedCertificate(key: seq<byte>, signature: seq<byte>, notBefore: Date, notAfter: Date): Node
    requires Plausible(notBefore) && Plausible(notAfter)
  {
    Sequence(Triple(Tbs(key, notBefore, notAfter), Algorithm(SHA256_WITH_RSA), BitString(signature)))
  }

  function PrivateKeyInfo(key: seq<byte>): Node {
    Sequence(Triple(Leaf(0x02, Integer(0)), Algorithm(RSA_ENCRYPTION), Leaf(0x04, key)))
  }

  // ----- Sizes -----

  /** Byte arrays count their contents in 32 bits. */
  predicate Sized(s: seq<byte>) {
    |s| < 0x1_0000_0000
  }

  /** A value that can be read back, of at most `size` octets. */
  predicate Sound(node: Node, size: nat) {
    Proper(node) && |Encode(node)| <= size
  }

  predicate SoundAll(nodes: List<Node>, size: nat) {
    ProperAll(nodes) && |EncodeAll(nodes)| <= size
  }

  lemma LimitIsLarge()
    ensures Binary.Limit(8) == 0x1_0000_0000_0000_0000
  {
    assert Binary.Limit(4) == 0x1_0000_0000 by {
      assert Binary.Limit(2) == 0x1_0000;
    }
    assert Binary.Limit(6) == 0x1_0000_0000_0000;
  }

  lemma TlvSize(tag: byte, content: seq<byte>)
    requires |content| < 0x4_0000_0000
    ensures Writable(|content|) && |content| < Binary.Limit(8) && |Tlv(tag, content)| <= |content| + 10
  {
    LimitIsLarge();
    SixtyFourBits(|content|);
  }

  lemma LeafSound(tag: byte, content: seq<byte>)
    requires |content| <= 0x1_0000_0000 && tag % 64 < 32 && tag % 32 != 31
    ensures Sound(Leaf(tag, content), |content| + 10)
  {
    TlvSize(tag, content);
  }

  lemma BranchSound(tag: byte, children: List<Node>, size: nat)
    requires SoundAll(children, size) && size < 0x4_0000_0000 && tag % 64 >= 32 && tag % 32 != 31
    ensures Sound(Branch(tag, children), size + 10) && |EncodeAll(children)| < Binary.Limit(8)
  {
    TlvSize(tag, EncodeAll(children));
  }

  lemma ConsSound(node: Node, rest: List<Node>, m: nat, n: nat)
    requires Sound(node, m) && SoundAll(rest, n)
    ensures SoundAll(Cons(node, rest), m + n)
  {
  }

  lemma PairSound(a: Node, b: Node, m: nat, n: nat)
    requires Sound(a, m) && Sound(b, n)
    ensures SoundAll(Pair(a, b), m + n)
  {
    ConsSound(b, Nil, n, 0);
    ConsSound(a, One(b), m, n);
  }

  lemma TripleSound(a: Node, b: Node, c: Node, m: nat, n: nat, o: nat)
    requires Sound(a, m) && Sound(b, n) && Sound(c, o)
    ensures SoundAll(Triple(a, b, c), m + n + o)
  {
    PairSound(b, c, n, o);
    ConsSound(a, Pair(b, c), m, n + o);
  }

  lemma AlgorithmSound(oid: seq<byte>)
    requires |oid| < 100
    ensures Sound(Algorithm(oid), 200)
  {
    LeafSound(0x06, oid);
    LeafSound(0x05, []);
    PairSound(Leaf(0x06, oid), Leaf(0x05, []), 110, 10);
    BranchSound(0x30, Pair(Leaf(0x06, oid), Leaf(0x05, [])), 120);
  }

  lemma RdnSound(oid: seq<byte>, tag: byte, value: seq<byte>)
    requires |oid| < 100 && |value| < 100 && tag % 64 < 32 && tag % 32 != 31
    ensures Sound(Rdn(oid, tag, value), 300) && Sound(Sequence(Pair(Leaf(0x06, oid), Leaf(tag, value))), 230)
  {
    var pair := Pair(Leaf(0x06, oid), Leaf(tag, value));
    LeafSound(0x06, oid);
    LeafSound(tag, value);
    PairSound(Leaf(0x06, oid), Leaf(tag, value), 110, 110);
    BranchSound(0x30, pair, 220);
    ConsSound(Sequence(pair), Nil, 230, 0);
    BranchSound(0x31, One(Sequence(pair)), 230);
  }

  lemma {:induction false} NameSound()
    ensures Sound(Name(), 1000)
  {
    RdnSound(COUNTRY, 0x13, CA);
    RdnSound(ORGANIZATION, 0x0c, FRIDA);
    RdnSound(COMMON_NAME, 0x0c, LOLCATHOST);
    TripleSound(Rdn(COUNTRY, 0x13, CA), Rdn(ORGANIZATION, 0x0c, FRIDA), Rdn(COMMON_NAME, 0x0c, LOLCATHOST),
                300, 300, 300);
    BranchSound(0x30, Name().children, 900);
  }

  lemma ValiditySound(a: Date, b: Date)
    requires Plausible(a) && Plausible(b)
    ensures Sound(Validity(a, b), 100)
  {
    LeafSound(0x17, UtcTime(a));
    LeafSound(0x17, UtcTime(b));
    PairSound(Leaf(0x17, UtcTime(a)), Leaf(0x17, UtcTime(b)), 23, 23);
    BranchSound(0x30, Validity(a, b).children, 46);
  }

  lemma KeyInfoSound(key: seq<byte>)
    requires Sized(key)
    ensures Sound(SubjectPublicKeyInfo(key), |key| + 300)
  {
    AlgorithmSound(RSA_ENCRYPTION);
    LeafSound(0x03, [0] + key);
    PairSound(Algorithm(RSA_ENCRYPTION), BitString(key), 200, |key| + 11);
    BranchSound(0x30, SubjectPublicKeyInfo(key).children, |key| + 211);
  }

  lemma SerialSound(v: nat)
    requires v < Binary.Limit(8)
    ensures Sound(Leaf(0x02, Integer(v)), 19)
  {
    BigFits(v);
    LeafSound(0x02, Integer(v));
  }

  lemma BigFits(v: nat)
    ensures |Integer(v)| <= 9
  {
    TrimShrinks([0] + Fixed(v, 8));
  }

  lemma {:induction false} TrimShrinks(s: seq<byte>)
    requires s != []
    ensures |Trim(s)| <= |s|
    decreases |s|
  {
    if |s| > 1 && s[0] == 0 && s[1] < 128 {
      TrimShrinks(s[1..]);
    }
  }

  lemma TbsSound(key: seq<byte>, a: Date, b: Date)
    requires Sized(key) && Plausible(a) && Plausible(b)
    ensures Sound(Tbs(key, a, b), |key| + 3000)
  {
    var last := Triple(Validity(a, b), Name(), SubjectPublicKeyInfo(key));
    ValiditySound(a, b);
    NameSound();
    KeyInfoSound(key);
    TripleSound(Validity(a, b), Name(), SubjectPublicKeyInfo(key), 100, 1000, |key| + 300);
    ConsSound(Name(), last, 1000, |key| + 1400);
    AlgorithmSound(SHA256_WITH_RSA);
    ConsSound(Algorithm(SHA256_WITH_RSA), Cons(Name(), last), 200, |key| + 2400);
    Binary.LimitAbove(1, 8);
    SerialSound(1);
    ConsSound(Leaf(0x02, Integer(1)), Cons(Algorithm(SHA256_WITH_RSA), Cons(Name(), last)), 19, |key| + 2600);
    BranchSound(0x30, Tbs(key, a, b).children, |key| + 2619);
  }

  lemma CertificateSound(key: seq<byte>, signature: seq<byte>, a: Date, b: Date)
    requires Sized(key) && Sized(signature) && Plausible(a) && Plausible(b)
    ensures Sound(SignedCertificate(key, signature, a, b), |key| + |signature| + 4000)
  {
    TbsSound(key, a, b);
    AlgorithmSound(SHA256_WITH_RSA);
    LeafSound(0x03, [0] + signature);
    TripleSound(Tbs(key, a, b), Algorithm(SHA256_WITH_RSA), BitString(signature), |key| + 3000, 200, |signature| + 11);
    BranchSound(0x30, SignedCertificate(key, signature, a, b).children, |key| + |signature| + 3211);
  }

  lemma PrivateKeySound(key: seq<byte>)
    requires Sized(key)
    ensures Sound(PrivateKeyInfo(key), |key| + 300)
  {
    Binary.LimitAbove(0, 8);
    SerialSound(0);
    AlgorithmSound(RSA_ENCRYPTION);
    LeafSound(0x04, key);
    TripleSound(Leaf(0x02, Integer(0)), Algorithm(RSA_ENCRYPTION), Leaf(0x04, key), 19, 200, |key| + 10);
    BranchSound(0x30, PrivateKeyInfo(key).children, |key| + 229);
  }

  lemma SoundReads(node: Node, size: nat)
    requires Sound(node, size)
    ensures ReadAll(Encode(node)) == Some(One(node))
  {
    TreeRoundTrip(One(node));
    assert EncodeAll(One(node)) == Encode(node);
  }

  /** Reading a certificate recovers its tree, whatever the sizes of the key and the signature. */
  lemma CertificateReads(key: seq<byte>, signature: seq<byte>, a: Date, b: Date)
    requires Sized(key) && Sized(signature) && Plausible(a) && Plausible(b)
    ensures
      ReadAll(Encode(SignedCertificate(key, signature, a, b))) == Some(One(SignedCertificate(key, signature, a, b)))
  {
    CertificateSound(key, signature, a, b);
    SoundReads(SignedCertificate(key, signature, a, b), |key| + |signature| + 4000);
  }

  lemma PrivateKeyReads(key: seq<byte>)
    requires Sized(key)
    ensures ReadAll(Encode(PrivateKeyInfo(key))) == Some(One(PrivateKeyInfo(key)))
  {
    PrivateKeySound(key);
    SoundReads(PrivateKeyInfo(key), |key| + 300);
  }

  // ----- Building -----

  /** The octets after appending the values one by one. */
  ghost function Onto(out: seq<byte>, nodes: List<Node>): seq<byte>
    decreases nodes
  {
    match nodes
    case Nil => out
    case Cons(node, rest) => Onto(out + Encode(node), rest)
  }

  lemma {:induction false} OntoIsAll(out: seq<byte>, nodes: List<Node>)
    ensures Onto(out, nodes) == out + EncodeAll(nodes)
    decreases nodes
  {
    match nodes
    case Nil =>
    case Cons(node, rest) => OntoIsAll(out + Encode(node), rest);
  }

  /** Wraps what has been appended. */
  method AppendBranch(out: seq<byte>, tag: byte, inner: seq<byte>, ghost children: List<Node>, ghost size: nat)
    returns (r: seq<byte>)
    requires inner == Onto([], children) && Sound(Branch(tag, children), size) && size < 0x4_0000_0000
    ensures r == out + Encode(Branch(tag, children))
  {
    OntoIsAll([], children);
    TlvSize(tag, inner);
    r := AppendTlv(out, tag, inner);
  }

  lemma OntoPair(out: seq<byte>, a: Node, b: Node)
    ensures Onto(out, Pair(a, b)) == out + Encode(a) + Encode(b)
  {
    assert Onto(out + Encode(a), One(b)) == Onto(out + Encode(a) + Encode(b), Nil);
  }

  lemma OntoTriple(out: seq<byte>, a: Node, b: Node, c: Node)
    ensures Onto(out, Triple(a, b, c)) == out + Encode(a) + Encode(b) + Encode(c)
  {
    OntoPair(out + Encode(a), b, c);
  }

  lemma OntoSix(out: seq<byte>, a: Node, b: Node, c: Node, d: Node, e: Node, f: Node)
    ensures Onto(out, Cons(a, Cons(b, Cons(c, Triple(d, e, f))))) ==
      out + Encode(a) + Encode(b) + Encode(c) + Encode(d) + Encode(e) + Encode(f)
  {
    var last := Triple(d, e, f);
    assert Onto(out, Cons(a, Cons(b, Cons(c, last)))) == Onto(out + Encode(a), Cons(b, Cons(c, last)));
    assert Onto(out + Encode(a), Cons(b, Cons(c, last))) == Onto(out + Encode(a) + Encode(b), Cons(c, last));
    OntoTriple(out + Encode(a) + Encode(b) + Encode(c), d, e, f);
  }

  method AppendLeaf(out: seq<byte>, tag: byte, value: seq<byte>) returns (r: seq<byte>)
    requires Sized(value)
    ensures r == out + Encode(Leaf(tag, value))
  {
    TlvSize(tag, value);
    r := AppendTlv(out, tag, value);
  }

  method AppendBitString(out: seq<byte>, bytes: seq<byte>) returns (r: seq<byte>)
    requires Sized(bytes)
    ensures r == out + Encode(BitString(bytes))
  {
    TlvSize(0x03, [0] + bytes);
    r := out + [0x03];
    r := AppendLength(r, |bytes| + 1);
    r := r + [0];
    r := r + bytes;
  }

  method BuildAlgorithmIdentifier(out: seq<byte>, oid: seq<byte>) returns (r: seq<byte>)
    requires |oid| < 100
    ensures r == out + Encode(Algorithm(oid))
  {
    var inner := AppendLeaf([], 0x06, oid);
    inner := AppendLeaf(inner, 0x05, []);
    AlgorithmSound(oid);
    OntoPair([], Leaf(0x06, oid), Leaf(0x05, []));
    r := AppendBranch(out, 0x30, inner, Algorithm(oid).children, 200);
  }

  method BuildRdn(out: seq<byte>, oid: seq<byte>, tag: byte, value: seq<byte>) returns (r: seq<byte>)
    requires |oid| < 100 && |value| < 100 && tag % 64 < 32 && tag % 32 != 31
    ensures r == out + Encode(Rdn(oid, tag, value))
  {
    var atv := AppendLeaf([], 0x06, oid);
    atv := AppendLeaf(atv, tag, value);
    OntoPair([], Leaf(0x06, oid), Leaf(tag, value));
    RdnSound(oid, tag, value);
    var rdn := AppendBranch([], 0x30, atv, Pair(Leaf(0x06, oid), Leaf(tag, value)), 230);
    r := AppendBranch(out, 0x31, rdn, Rdn(oid, tag, value).children, 300);
  }

  method BuildName(out: seq<byte>) returns (r: seq<byte>)
    ensures r == out + Encode(Name())
  {
    var inner := BuildRdn([], COUNTRY, 0x13, CA);
    inner := BuildRdn(inner, ORGANIZATION, 0x0c, FRIDA);
    inner := BuildRdn(inner, COMMON_NAME, 0x0c, LOLCATHOST);
    NameSound();
    OntoTriple([], Rdn(COUNTRY, 0x13, CA), Rdn(ORGANIZATION, 0x0c, FRIDA), Rdn(COMMON_NAME, 0x0c, LOLCATHOST));
    r := AppendBranch(out, 0x30, inner, Name().children, 1000);
  }

  method BuildValidity(out: seq<byte>, a: Date, b: Date) returns (r: seq<byte>)
    requires Plausible(a) && Plausible(b)
    ensures r == out + Encode(Validity(a, b))
  {
    var inner := AppendLeaf([], 0x17, UtcTime(a));
    inner := AppendLeaf(inner, 0x17, UtcTime(b));
    ValiditySound(a, b);
    OntoPair([], Leaf(0x17, UtcTime(a)), Leaf(0x17, UtcTime(b)));
    r := AppendBranch(out, 0x30, inner, Validity(a, b).children, 100);
  }

  method BuildSubjectPublicKeyInfo(key: seq<byte>) returns (r: seq<byte>)
    requires Sized(key)
    ensures r == Encode(SubjectPublicKeyInfo(key))
  {
    var inner := BuildAlgorithmIdentifier([], RSA_ENCRYPTION);
    inner := AppendBitString(inner, key);
    KeyInfoSound(key);
    OntoPair([], Algorithm(RSA_ENCRYPTION), BitString(key));
    r := AppendBranch([], 0x30, inner, SubjectPublicKeyInfo(key).children, |key| + 300);
  }

  method BuildTbsFields(keyInfo: seq<byte>, ghost key: seq<byte>, a: Date, b: Date) returns (inner: seq<byte>)
    requires Sized(key) && keyInfo == Encode(SubjectPublicKeyInfo(key)) && Plausible(a) && Plausible(b)
    ensures inner == Onto([], Tbs(key, a, b).children)
  {
    Binary.LimitAbove(1, 8);
    inner := AppendInteger([], 1);
    inner := BuildAlgorithmIdentifier(inner, SHA256_WITH_RSA);
    inner := BuildName(inner);
    inner := BuildValidity(inner, a, b);
    inner := BuildName(inner);
    inner := inner + keyInfo;
    OntoSix([], Leaf(0x02, Integer(1)), Algorithm(SHA256_WITH_RSA), Name(), Validity(a, b), Name(),
            SubjectPublicKeyInfo(key));
  }

  method BuildTbsCertificate(keyInfo: seq<byte>, ghost key: seq<byte>, a: Date, b: Date) returns (r: seq<byte>)
    requires Sized(key) && keyInfo == Encode(SubjectPublicKeyInfo(key)) && Plausible(a) && Plausible(b)
    ensures r == Encode(Tbs(key, a, b))
  {
    var inner := BuildTbsFields(keyInfo, key, a, b);
    TbsSound(key, a, b);
    r := AppendBranch([], 0x30, inner, Tbs(key, a, b).children, |key| + 3000);
  }

  /** The signed octets are the first element of the certificate. */
  method BuildSignedCertificate(tbs: seq<byte>, signature: seq<byte>, ghost key: seq<byte>, ghost a: Date,
                                ghost b: Date)
    returns (r: seq<byte>)
    requires Sized(key) && Sized(signature) && Plausible(a) && Plausible(b) && tbs == Encode(Tbs(key, a, b))
    ensures r == Encode(SignedCertificate(key, signature, a, b))
  {
    var inner: seq<byte> := [];
    inner := inner + tbs;
    inner := BuildAlgorithmIdentifier(inner, SHA256_WITH_RSA);
    inner := AppendBitString(inner, signature);
    CertificateSound(key, signature, a, b);
    OntoTriple([], Tbs(key, a, b), Algorithm(SHA256_WITH_RSA), BitString(signature));
    r := AppendBranch([], 0x30, inner, SignedCertificate(key, signature, a, b).children, |key| + |signature| + 4000);
  }

  method BuildPrivateKeyInfo(key: seq<byte>) returns (r: seq<byte>)
    requires Sized(key)
    ensures r == Encode(PrivateKeyInfo(key))
  {
    Binary.LimitAbove(0, 8);
    var inner := AppendInteger([], 0);
    inner := BuildAlgorithmIdentifier(inner, RSA_ENCRYPTION);
    inner := AppendLeaf(inner, 0x04, key);
    PrivateKeySound(key);
    OntoTriple([], Leaf(0x02, Integer(0)), Algorithm(RSA_ENCRYPTION), Leaf(0x04, key));
    r := AppendBranch([], 0x30, inner, PrivateKeyInfo(key).children, |key| + 300);
  }

  /**
    The built certificate and key read back as trees that hold the keys, the dates and the signature of
    exactly the octets that stand first in the certificate.
   */
  method GenerateCertificate(publicKey: seq<byte>, privateKey: seq<byte>, sign: seq<byte> -> seq<byte>, a: Date,
                             b: Date)
    returns (certificate: seq<byte>, pkcs8: seq<byte>)
    requires Sized(publicKey) && Sized(privateKey) && Plausible(a) && Plausible(b)
    requires Sized(sign(Encode(Tbs(publicKey, a, b))))
    ensures ReadAll(certificate) == Some(One(SignedCertificate(publicKey, sign(Encode(Tbs(publicKey, a, b))), a, b)))
    ensures ReadAll(pkcs8) == Some(One(PrivateKeyInfo(privateKey)))
  {
    var keyInfo := BuildSubjectPublicKeyInfo(publicKey);
    var tbs := BuildTbsCertificate(keyInfo, publicKey, a, b);
    var signature := sign(tbs);
    certificate := BuildSignedCertificate(tbs, signature, publicKey, a, b);
    pkcs8 := BuildPrivateKeyInfo(privateKey);
    CertificateReads(publicKey, signature, a, b);
    PrivateKeyReads(privateKey);
  }
}
