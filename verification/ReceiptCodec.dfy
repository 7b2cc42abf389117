/** Receipts, receipt proofs and metadata on the wire. */
module ReceiptCodecs {
  import opened Options
  import opened Bytes
  import opened Codecs

  // ---------- receipts

  const AMOUNT_SIZE: nat := 16
  const BLINDING_FACTOR_SIZE: nat := 16
  const TOKEN_PUBKEY_SIZE: nat := 33
  const RECEIPT_SIZE: nat := 65

  datatype Receipt<K> = Receipt(amount: nat, blindingFactor: seq<Byte>, token: K)

  datatype Keys<!K> = Keys(bytes: K -> seq<Byte>, parse: seq<Byte> -> Option<K>)

  ghost predicate ValidKeys<K(!new)>(keys: Keys<K>) {
    forall k :: |keys.bytes(k)| == TOKEN_PUBKEY_SIZE && keys.parse(keys.bytes(k)) == Some(k)
  }

  ghost function ValidReceipt<K(!new)>(): Receipt<K> -> bool {
    (r: Receipt<K>) => r.amount < Pow256(AMOUNT_SIZE) && |r.blindingFactor| == BLINDING_FACTOR_SIZE
  }

  function ReceiptBytes<K>(keys: Keys<K>, r: Receipt<K>): seq<Byte> {
    BigEndian(r.amount, AMOUNT_SIZE) + r.blindingFactor + keys.bytes(r.token)
  }

  function FromBytes<K>(keys: Keys<K>, s: seq<Byte>): Option<Receipt<K>> {
    if |s| < RECEIPT_SIZE then None
    else match keys.parse(s[AMOUNT_SIZE + BLINDING_FACTOR_SIZE..RECEIPT_SIZE])
      case None => None
      case Some(token) =>
        Some(Receipt(FromBigEndian(s[..AMOUNT_SIZE]), s[AMOUNT_SIZE..AMOUNT_SIZE + BLINDING_FACTOR_SIZE], token))
  }

  function ReadReceipt<K>(keys: Keys<K>, s: seq<Byte>): Option<(Receipt<K>, seq<Byte>)> {
    match FromBytes(keys, s)
    case None => None
    case Some(r) => Some((r, s[RECEIPT_SIZE..]))
  }

  function ReceiptOf<K>(keys: Keys<K>): Codec<Receipt<K>> {
    Codec((r: Receipt<K>) => ReceiptBytes(keys, r), s => ReadReceipt(keys, s))
  }

  /** A receipt always takes 65 bytes and comes back. */
  lemma ReceiptReadBack<K(!new)>(keys: Keys<K>, r: Receipt<K>, s: seq<Byte>)
    requires ValidKeys(keys) && ValidReceipt()(r)
    ensures |ReceiptBytes(keys, r)| == RECEIPT_SIZE
    ensures ReadReceipt(keys, ReceiptBytes(keys, r) + s) == Some((r, s))
  {
    hide Pow256, BigEndian, FromBigEndian;
    BigEndianRoundTrip(r.amount, AMOUNT_SIZE);
    var bytes := ReceiptBytes(keys, r) + s;
    assert bytes[..16] == BigEndian(r.amount, AMOUNT_SIZE);
    assert bytes[16..32] == r.blindingFactor;
    assert bytes[32..65] == keys.bytes(r.token);
    assert bytes[65..] == s;
  }

  lemma ReceiptDelimited<K(!new)>(keys: Keys<K>)
    requires ValidKeys(keys)
    ensures SelfDelimiting(ReceiptOf(keys), ValidReceipt())
  {
    hide ReceiptBytes, ReadReceipt, ValidReceipt, ValidKeys;
    forall r: Receipt<K>, s: seq<Byte> | ValidReceipt()(r)
      ensures ReceiptOf(keys).decode(ReceiptOf(keys).encode(r) + s) == Some((r, s))
    {
      ReceiptReadBack(keys, r, s);
    }
  }

  method CopyFromSlice(buf: array<Byte>, at: nat, src: seq<Byte>)
    requires at + |src| <= buf.Length
    modifies buf
    ensures buf[..] == old(buf[..at]) + src + old(buf[at + |src|..])
  {
    for i := 0 to |src|
      invariant forall j | 0 <= j < i :: buf[at + j] == src[j]
      invariant forall j | 0 <= j < buf.Length && !(at <= j < at + i) :: buf[j] == old(buf[j])
    {
      buf[at + i] := src[i];
    }
  }

  /** Fills a buffer of exactly the size of a receipt. */
  method ToBytes<K(!new)>(keys: Keys<K>, r: Receipt<K>) returns (buf: array<Byte>)
    requires ValidKeys(keys) && |r.blindingFactor| == BLINDING_FACTOR_SIZE
    ensures fresh(buf) && buf[..] == ReceiptBytes(keys, r)
  {
    hide BigEndian, ValidKeys;
    assert |keys.bytes(r.token)| == TOKEN_PUBKEY_SIZE by { KeySize(keys, r.token); }
    buf := new Byte[RECEIPT_SIZE](i => 0);
    CopyFromSlice(buf, 0, BigEndian(r.amount, AMOUNT_SIZE));
    CopyFromSlice(buf, AMOUNT_SIZE, r.blindingFactor);
    CopyFromSlice(buf, AMOUNT_SIZE + BLINDING_FACTOR_SIZE, keys.bytes(r.token));
  }

  lemma KeySize<K(!new)>(keys: Keys<K>, k: K)
    requires ValidKeys(keys)
    ensures |keys.bytes(k)| == TOKEN_PUBKEY_SIZE
  {
  }

  method EncodeReceipt<K(!new)>(keys: Keys<K>, r: Receipt<K>, w: Writer) returns (len: nat)
    requires ValidKeys(keys) && |r.blindingFactor| == BLINDING_FACTOR_SIZE
    modifies w
    ensures w.buf == old(w.buf) + ReceiptBytes(keys, r) && len == |ReceiptBytes(keys, r)|
  {
    hide BigEndian, ValidKeys;
    assert |keys.bytes(r.token)| == TOKEN_PUBKEY_SIZE by { KeySize(keys, r.token); }
    var buf := ToBytes(keys, r);
    var _ := w.WriteAll(buf[..]);
    return RECEIPT_SIZE;
  }

  method DecodeReceipt<K>(keys: Keys<K>, r: Reader) returns (o: Option<Receipt<K>>)
    modifies r
    ensures ReadAs(ReceiptOf(keys), old(r.data), o, r.data)
  {
    hide FromBigEndian;
    var bytes := r.ReadExact(RECEIPT_SIZE);
    if bytes.None? {
      return None;
    }
    assert bytes.value[32..65] == old(r.data)[32..65];
    assert bytes.value[..16] == old(r.data)[..16];
    assert bytes.value[16..32] == old(r.data)[16..32];
    return FromBytes(keys, bytes.value);
  }

  // ---------- receipt proofs

  datatype Kind = Sig | Multisig | Lightning | LightningHtlc | EmptyReceipt | P2wsh | P2tr | SparkExit

  function Flag(k: Kind): Byte {
    match k
    case Sig => 0
    case Multisig => 1
    case Lightning => 2
    case LightningHtlc => 3
    case EmptyReceipt => 5
    case P2wsh => 6
    case P2tr => 7
    case SparkExit => 8
  }

  function KindOf(b: Byte): Option<Kind> {
    match b
    case 0 => Some(Sig)
    case 6 => Some(P2wsh)
    case 7 => Some(P2tr)
    case 5 => Some(EmptyReceipt)
    case 1 => Some(Multisig)
    case 2 => Some(Lightning)
    case 3 => Some(LightningHtlc)
    case 8 => Some(SparkExit)
    case _ => None
  }

  /** The flags tell the kinds apart, and no other byte is one. */
  lemma FlagsAreKinds(k: Kind, b: Byte)
    ensures KindOf(b) == Some(k) <==> Flag(k) == b
  {
  }

  /** The codec of each kind's own content. */
  type Contents<!P> = Kind -> Codec<P>

  function ProofBytes<P>(cs: Contents<P>, x: (Kind, P)): seq<Byte> {
    [Flag(x.0)] + cs(x.0).encode(x.1)
  }

  function ReadProof<P>(cs: Contents<P>, s: seq<Byte>): Option<((Kind, P), seq<Byte>)> {
    if s == [] || KindOf(s[0]).None? then None
    else match cs(KindOf(s[0]).value).decode(s[1..])
      case None => None
      case Some((p, rest)) => Some(((KindOf(s[0]).value, p), rest))
  }

  function ProofOf<P>(cs: Contents<P>): Codec<(Kind, P)> {
    Codec((x: (Kind, P)) => ProofBytes(cs, x), s => ReadProof(cs, s))
  }

  ghost predicate ContentsDelimited<P(!new)>(cs: Contents<P>, valid: ((Kind, P)) -> bool) {
    forall k: Kind :: SelfDelimiting(cs(k), (p: P) => valid((k, p)))
  }

  lemma ProofReadBack<P(!new)>(cs: Contents<P>, valid: ((Kind, P)) -> bool, x: (Kind, P), s: seq<Byte>)
    requires ContentsDelimited(cs, valid) && valid(x)
    ensures ReadProof(cs, ProofBytes(cs, x) + s) == Some((x, s))
  {
    hide Flag, KindOf;
    var (k, p) := x;
    FlagsAreKinds(k, Flag(k));
    var bytes := ProofBytes(cs, x) + s;
    assert bytes[0] == Flag(k) && bytes[1..] == cs(k).encode(p) + s;
    assert SelfDelimiting(cs(k), (p: P) => valid((k, p)));
    DelimitedAt(cs(k), (p: P) => valid((k, p)), p, s);
  }

  lemma DelimitedAt<T(!new)>(c: Codec<T>, valid: T -> bool, x: T, s: seq<Byte>)
    requires SelfDelimiting(c, valid) && valid(x)
    ensures c.decode(c.encode(x) + s) == Some((x, s))
  {
  }

  lemma ProofDelimited<P(!new)>(cs: Contents<P>, valid: ((Kind, P)) -> bool)
    requires ContentsDelimited(cs, valid)
    ensures SelfDelimiting(ProofOf(cs), valid)
  {
    hide ProofBytes, ReadProof, ContentsDelimited;
    forall x: (Kind, P), s: seq<Byte> | valid(x) ensures ProofOf(cs).decode(ProofOf(cs).encode(x) + s) == Some((x, s)) {
      ProofReadBack(cs, valid, x, s);
    }
  }

  method EncodeReceiptProof<P>(cs: Contents<P>, x: (Kind, P), w: Writer) returns (len: nat)
    modifies w
    ensures w.buf == old(w.buf) + ProofBytes(cs, x) && len == |ProofBytes(cs, x)|
  {
    len := Write(U8(), Flag(x.0), w);
    var n := Write(cs(x.0), x.1, w);
    len := len + n;
  }

  method DecodeReceiptProof<P>(cs: Contents<P>, r: Reader) returns (o: Option<(Kind, P)>)
    modifies r
    ensures ReadAs(ProofOf(cs), old(r.data), o, r.data)
  {
    hide KindOf;
    var flag := Read(U8(), r);
    if flag.None? {
      return None;
    }
    var kind := KindOf(flag.value);
    if kind.None? {
      return None;
    }
    var p := Read(cs(kind.value), r);
    if p.None? {
      return None;
    }
    return Some((kind.value, p.value));
  }

  // ---------- metadata

  /** The text of a value, which is never empty. */
  datatype Json<!T> = Json(toVec: T -> seq<Byte>, fromSlice: seq<Byte> -> Option<T>)

  ghost predicate ValidJson<T(!new)>(j: Json<T>) {
    forall x :: j.toVec(x) != [] && j.fromSlice(j.toVec(x)) == Some(x)
  }

  /** The length is cast to four bytes. */
  function MetadataBytes<T>(j: Json<T>, o: Option<T>): seq<Byte> {
    match o
    case None => BigEndian(0, 4)
    case Some(x) => BigEndian(|j.toVec(x)|, 4) + j.toVec(x)
  }

  /** As many bytes as the length says, or all there are. */
  function ReadMetadata<T>(j: Json<T>, s: seq<Byte>): Option<(Option<T>, seq<Byte>)> {
    if |s| < 4 then None
    else
      var n, rest := FromBigEndian(s[..4]), s[4..];
      var taken := if n <= |rest| then n else |rest|;
      if n == 0 then Some((None, rest))
      else match j.fromSlice(rest[..taken])
        case None => None
        case Some(x) => Some((Some(x), rest[taken..]))
  }

  /** Metadata comes back, and what follows stays, exactly when its length fits. */
  lemma MetadataReadBack<T(!new)>(j: Json<T>, o: Option<T>, s: seq<Byte>)
    requires ValidJson(j)
    ensures ReadMetadata(j, MetadataBytes(j, o) + s) == Some((o, s)) <==> (o.Some? ==> FitsU32(|j.toVec(o.value)|))
  {
    hide BigEndian, FromBigEndian, Pow256;
    var n := if o.Some? then |j.toVec(o.value)| else 0;
    BigEndianRoundTrip(n, 4);
    var bytes := MetadataBytes(j, o) + s;
    assert bytes[..4] == BigEndian(n, 4);
    match o
    case None => assert bytes[4..] == s;
    case Some(x) =>
      var rest := bytes[4..];
      assert rest == j.toVec(x) + s;
      if FitsU32(n) {
        assert rest[..n] == j.toVec(x) && rest[n..] == s;
      } else {
        var m := FromBigEndian(bytes[..4]);
        assert m < n && |rest[m..]| > |s|;
      }
  }

  /** The returned length is what was written. It is the whole metadata exactly when
      the writer takes the length and the text in a single call each. */
  method TryWriteMetadata<T>(j: Json<T>, o: Option<T>, w: Writer) returns (len: nat)
    modifies w
    ensures old(w.buf) <= w.buf && len == |w.buf| - |old(w.buf)|
    ensures w.buf == old(w.buf) + MetadataBytes(j, o) <==>
            w.limit.None? || (4 <= w.limit.value && (o.Some? ==> |j.toVec(o.value)| <= w.limit.value))
  {
    hide BigEndian;
    len := 0;
    match o {
      case Some(x) =>
        var bytes := j.toVec(x);
        var n := w.WriteOnce(BigEndian(|bytes|, 4));
        len := len + n;
        n := w.WriteOnce(bytes);
        len := len + n;
        BothTaken(w, old(w.buf), BigEndian(|bytes|, 4), bytes);
      case None =>
        var n := w.WriteOnce(BigEndian(0, 4));
        len := len + n;
        BothTaken(w, old(w.buf), BigEndian(0, 4), []);
    }
  }

  lemma BothTaken(w: Writer, buf: seq<Byte>, a: seq<Byte>, b: seq<Byte>)
    ensures buf + w.Taken(a) + w.Taken(b) == buf + (a + b) <==> w.Taken(a) == a && w.Taken(b) == b
    ensures w.Taken([]) == [] && a + [] == a && buf + w.Taken(a) + [] == buf + w.Taken(a)
  {
    if buf + w.Taken(a) + w.Taken(b) == buf + (a + b) {
      assert |w.Taken(a)| + |w.Taken(b)| == |a| + |b|;
    }
  }

  method TryReadMetadata<T>(j: Json<T>, r: Reader) returns (o: Option<Option<T>>)
    modifies r
    ensures ReadAs(Codec((x: Option<T>) => MetadataBytes(j, x), s => ReadMetadata(j, s)), old(r.data), o, r.data)
  {
    hide FromBigEndian;
    var lenBytes := r.ReadExact(4);
    if lenBytes.None? {
      return None;
    }
    var n := FromBigEndian(lenBytes.value);
    if n == 0 {
      return Some(None);
    }
    var taken := if n <= |r.data| then n else |r.data|;
    var bytes := r.data[..taken];
    r.data := r.data[taken..];
    var x := j.fromSlice(bytes);
    if x.None? {
      return None;
    }
    return Some(Some(x.value));
  }
}
