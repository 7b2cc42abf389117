/** The bytes themselves: which byte stands where, whatever the encoders are called. */
module WireLayout {
  import opened Options
  import opened Bytes
  import opened Codecs
  import opened MapCodecs
  import opened TxCodecs
  import opened ReceiptCodecs
  import opened TokenSums
  import Totals
  import ProofMaps

  // ---------- numbers

  lemma {:induction false} LittleEndianAt(v: nat, k: nat, i: nat)
    requires i < k
    ensures LittleEndian(v, k)[i] == v / Pow256(i) % 256
  {
    if i > 0 {
      LittleEndianAt(v / 256, k - 1, i - 1);
      DividedTwice(v, 256, Pow256(i - 1));
    }
  }

  lemma {:induction false} BigEndianAt(v: nat, k: nat, i: nat)
    requires i < k
    ensures BigEndian(v, k)[i] == v / Pow256(k - 1 - i) % 256
  {
    if i < k - 1 {
      BigEndianAt(v / 256, k - 1, i);
      DividedTwice(v, 256, Pow256(k - 2 - i));
    }
  }

  lemma DividedTwice(v: nat, a: nat, b: nat)
    requires a > 0 && b > 0
    ensures a * b > 0 && v / a / b == v / (a * b)
  {
    var q := v / a;
    Regrouped(a, b, q / b, q % b);
    SmallRest(a, b, v % a, q % b);
    assert v == a * q + v % a && q == b * (q / b) + q % b;
    QuotientUnique(v, a * b, q / b, a * (q % b) + v % a);
  }

  lemma Regrouped(a: nat, b: nat, q: nat, r: nat)
    ensures a * (b * q + r) == (a * b) * q + a * r
  {
    assert a * (b * q) == (a * b) * q;
  }

  lemma SmallRest(a: nat, b: nat, r: nat, s: nat)
    requires r < a && s < b
    ensures a * s + r < a * b
  {
    assert a * (s + 1) <= a * b;
    assert a * (s + 1) == a * s + a;
  }

  lemma QuotientUnique(x: nat, m: nat, q: nat, r: nat)
    requires r < m && x == m * q + r
    ensures x / m == q
  {
    var d := q - x / m;
    assert x == m * (x / m) + x % m;
    assert m * d == x % m - r;
    assert d >= 1 ==> m * d >= m;
    assert d <= -1 ==> m * d + m <= 0;
  }

  /** The limits of the casts and of the amounts, written out. */
  lemma LimitsAre()
    ensures AmountLimit() == 340282366920938463463374607431768211456 == Pow256(16)
    ensures forall n: nat :: FitsU32(n) <==> n < 4294967296
  {
    PowersAre();
    AmountLimitIs();
  }

  // ---------- lists and maps

  /** Four bytes for the number of elements, the lowest first, then the elements in order. */
  lemma ListLayout<T>(c: Codec<T>, xs: seq<T>, x: T)
    ensures |CountedBytes(c, xs)| >= 4
    ensures forall i | 0 <= i < 4 :: CountedBytes(c, xs)[i] == |xs| / Pow256(i) % 256
    ensures CountedBytes(c, [])[4..] == []
    ensures CountedBytes(c, xs + [x])[4..] == CountedBytes(c, xs)[4..] + c.encode(x)
  {
    hide LittleEndian, Pow256, ListBytes;
    forall i | 0 <= i < 4 ensures CountedBytes(c, xs)[i] == |xs| / Pow256(i) % 256 {
      LittleEndianAt(|xs|, 4, i);
    }
    NothingWritten(c);
    ListBytesAppend(c, xs, x);
  }

  /** An entry is its index in four bytes, the lowest first, and its value. */
  lemma MapLayout<V>(c: Codec<V>, m: seq<(nat, V)>, k: nat, v: V)
    ensures |MapBytes(c, m)| >= 4
    ensures forall i | 0 <= i < 4 :: MapBytes(c, m)[i] == |m| / Pow256(i) % 256
    ensures MapBytes(c, [])[4..] == []
    ensures |MapBytes(c, m + [(k, v)])| == |MapBytes(c, m)| + 4 + |c.encode(v)|
    ensures var entry := MapBytes(c, m + [(k, v)])[|MapBytes(c, m)|..];
            && (forall i | 0 <= i < 4 :: entry[i] == k / Pow256(i) % 256)
            && entry[4..] == c.encode(v)
            && MapBytes(c, m + [(k, v)])[4..] == MapBytes(c, m)[4..] + entry
  {
    hide LittleEndian, Pow256, ListBytes;
    ListLayout(EntryOf(c), m, (k, v));
    var all, entry := MapBytes(c, m + [(k, v)]), LittleEndian(k, 4) + c.encode(v);
    assert EntryOf(c).encode((k, v)) == entry;
    assert all[4..] == MapBytes(c, m)[4..] + entry;
    assert |all| == |MapBytes(c, m)| + |entry|;
    assert all[|MapBytes(c, m)|..] == all[4..][|MapBytes(c, m)| - 4..] == entry;
    forall i | 0 <= i < 4 ensures entry[i] == k / Pow256(i) % 256 {
      LittleEndianAt(k, 4, i);
    }
  }

  /** Entries are read in whatever order they come, the last of each index counting. */
  lemma MapRead<V(!new)>(c: Codec<V>, valid: V -> bool, entries: seq<(nat, V)>, s: seq<Byte>)
    requires SelfDelimiting(c, valid) && |entries| < 4294967296
    requires forall i | 0 <= i < |entries| :: entries[i].0 < 4294967296 && valid(entries[i].1)
    ensures ReadMap(c, MapBytes(c, entries) + s) == Some((ProofMaps.Collected(entries), s))
  {
    hide CountedBytes, ReadCounted, ProofMaps.Collected, FitsU32;
    LimitsAre();
    EntryDelimited(c, valid);
    CountedDelimited(EntryOf(c), ValidEntry(valid), entries, s);
  }

  /** Any first byte but zero announces a value. */
  lemma OptionRead<T>(c: Codec<T>, s: seq<Byte>)
    ensures ReadOption(c, [0] + s) == Some((None, s))
    ensures forall b: Byte | b != 0 ::
              ReadOption(c, [b] + s) == match c.decode(s) case None => None case Some((x, rest)) => Some((Some(x), rest))
  {
    assert forall b: Byte :: ([b] + s)[1..] == s;
  }

  // ---------- transaction types

  /** The first byte and the parts after it, in order. */
  lemma TypeLayout<I, A, V>(p: Payloads<I, A, V>, t: TxType<I, A, V>)
    ensures match t
            case Issue(None, a) => TypeBytes(p, t) == [0] + p.issue.encode(a) + [0]
            case Issue(Some(m), a) => TypeBytes(p, t) == [0] + p.issue.encode(a) + [1] + MapBytes(p.proof, m)
            case Transfer(inputs, outputs) => TypeBytes(p, t) == [1] + MapBytes(p.proof, inputs) + MapBytes(p.proof, outputs)
            case Announce(a) => TypeBytes(p, t) == [2] + p.announcement.encode(a)
            case SparkExit(m) => TypeBytes(p, t) == [4] + MapBytes(p.proof, m)
  {
    hide MapBytes;
  }

  /** What is read is told by the first byte, and no other byte is read. */
  lemma TypeRead<I, A, V>(p: Payloads<I, A, V>, s: seq<Byte>)
    ensures ReadType(p, s).Some? ==>
              s != [] && (match ReadType(p, s).value.0
                          case Issue(_, _) => s[0] == 0
                          case Transfer(_, _) => s[0] == 1
                          case Announce(_) => s[0] == 2
                          case SparkExit(_) => s[0] == 4)
  {
    hide ReadMap;
  }

  lemma TransactionLayout<B, I, A, V>(b: Codec<B>, p: Payloads<I, A, V>, tx: (B, TxType<I, A, V>))
    ensures PairOf(b, TypeOf(p)).encode(tx) == b.encode(tx.0) + TypeBytes(p, tx.1)
  {
    hide TypeBytes;
  }

  lemma InventoryLayout<T, H, F>(c: Ids<T, H, F>, i: Inventory<T, H, F>)
    ensures match i
            case Ltx(t) => InventoryBytes(c, i) == [0] + c.txid.encode(t)
            case SparkTx(h) => InventoryBytes(c, i) == [1] + c.hash.encode(h)
            case SparkSignatures(h) => InventoryBytes(c, i) == [2] + c.hash.encode(h)
            case SparkFreeze(f) => InventoryBytes(c, i) == [3] + c.freeze.encode(f)
  {
  }

  lemma InventoryRead<T, H, F>(c: Ids<T, H, F>, s: seq<Byte>)
    ensures ReadInventory(c, s).Some? ==>
              s != [] && (match ReadInventory(c, s).value.0
                          case Ltx(_) => s[0] == 0
                          case SparkTx(_) => s[0] == 1
                          case SparkSignatures(_) => s[0] == 2
                          case SparkFreeze(_) => s[0] == 3)
  {
  }

  // ---------- receipts

  /** Sixteen bytes of amount, the highest first, sixteen of blinding and the key. */
  lemma ReceiptLayout<K(!new)>(keys: Keys<K>, r: ReceiptCodecs.Receipt<K>)
    requires ValidKeys(keys) && |r.blindingFactor| == 16
    ensures var bytes := ReceiptBytes(keys, r);
            && |bytes| == 65 && (forall i | 0 <= i < 16 :: bytes[i] == r.amount / Pow256(15 - i) % 256)
            && bytes[16..32] == r.blindingFactor && bytes[32..] == keys.bytes(r.token)
  {
    hide BigEndian, Pow256;
    assert |keys.bytes(r.token)| == 33;
    forall i | 0 <= i < 16 ensures BigEndian(r.amount, 16)[i] == r.amount / Pow256(15 - i) % 256 {
      BigEndianAt(r.amount, 16, i);
    }
  }

  lemma ReceiptProofLayout<P>(cs: Contents<P>, x: (Kind, P))
    ensures ReceiptCodecs.ProofBytes(cs, x) ==
            [match x.0
             case Sig => 0
             case Multisig => 1
             case Lightning => 2
             case LightningHtlc => 3
             case EmptyReceipt => 5
             case P2wsh => 6
             case P2tr => 7
             case SparkExit => 8] + cs(x.0).encode(x.1)
  {
  }

  /** The length of the text in four bytes, the highest first, and the text. */
  lemma MetadataLayout<T>(j: Json<T>, o: Option<T>)
    ensures var text := if o.Some? then j.toVec(o.value) else [];
            && |MetadataBytes(j, o)| == 4 + |text| && MetadataBytes(j, o)[4..] == text
            && forall i | 0 <= i < 4 :: MetadataBytes(j, o)[i] == |text| / Pow256(3 - i) % 256
  {
    hide BigEndian, Pow256;
    var text := if o.Some? then j.toVec(o.value) else [];
    forall i | 0 <= i < 4 ensures BigEndian(|text|, 4)[i] == |text| / Pow256(3 - i) % 256 {
      BigEndianAt(|text|, 4, i);
    }
  }

  /** A length of zero is no text; otherwise as much is read as the length says, or as
      there is. */
  lemma MetadataRead<T>(j: Json<T>, n: nat, text: seq<Byte>)
    requires n < 4294967296
    ensures n == 0 ==> ReadMetadata(j, BigEndian(n, 4) + text) == Some((None, text))
    ensures n > 0 ==>
              var taken := if n < |text| then n else |text|;
              ReadMetadata(j, BigEndian(n, 4) + text) ==
              match j.fromSlice(text[..taken]) case None => None case Some(x) => Some((Some(x), text[taken..]))
  {
    hide BigEndian, FromBigEndian, Pow256;
    PowersAre();
    BigEndianRoundTrip(n, 4);
    var s := BigEndian(n, 4) + text;
    assert s[..4] == BigEndian(n, 4) && s[4..] == text;
  }

  // ---------- amounts

  /** The amounts that can be received are those below the limit, and all of them are. */
  lemma AmountsOnTheWire<K(!new)>(keys: Keys<K>, s: seq<Byte>, amount: nat, blinding: seq<Byte>, token: K)
    requires ValidKeys(keys) && |blinding| == 16
    ensures ReadReceipt(keys, s).Some? ==> ReadReceipt(keys, s).value.0.amount < AmountLimit()
    ensures var r := ReceiptCodecs.Receipt(amount, blinding, token);
            ReadReceipt(keys, ReceiptBytes(keys, r) + s) == Some((r, s)) <==> amount < AmountLimit()
  {
    hide BigEndian, FromBigEndian, Pow256, AmountLimit;
    LimitsAre();
    var r := ReceiptCodecs.Receipt(amount, blinding, token);
    if |s| >= 65 {
      BigEndianBelow(s[..16]);
    }
    if amount < AmountLimit() {
      ReceiptReadBack(keys, r, s);
    } else {
      ReceiptLayout(keys, r);
      BigEndianBelow((ReceiptBytes(keys, r) + s)[..16]);
    }
  }

  lemma {:induction false} BigEndianBelow(s: seq<Byte>)
    ensures FromBigEndian(s) < Pow256(|s|)
  {
    if s != [] {
      BigEndianBelow(s[..|s| - 1]);
    }
  }

  /** Passing on one proof is conserved exactly for the amounts that can be received. */
  lemma PassedOn(p: ReceiptProof)
    ensures Conserved([p], [p]) <==> p.Of().amount < AmountLimit()
    ensures Overflows([p]) <==> p.Of().amount >= AmountLimit()
  {
    hide AmountLimit;
    LimitsAre();
    forall token ensures Total([p], token) == Amount(p, token) {
      assert [p] == [] + [p];
      Totals.SumAppend(AmountOf(token), [], p);
    }
    assert Total([p], p.Of().token) == p.Of().amount;
  }
}
