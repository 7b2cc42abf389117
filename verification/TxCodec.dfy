/** Transactions and inventories on the wire. Bitcoin transactions, announcements,
    receipt proofs and hashes come with codecs of their own. */
module TxCodecs {
  import opened Options
  import opened Bytes
  import opened Codecs
  import opened MapCodecs
  import ReceiptCodecs

  const ISSUE_FLAG: Byte := 0
  const TRANSFER_FLAG: Byte := 1
  const ANNOUNCEMENT_FLAG: Byte := 2
  const SPARK_EXIT_FLAG: Byte := 4

  datatype TxType<I, A, V> =
    | Issue(minted: Option<seq<(nat, V)>>, announcement: I)
    | Transfer(inputs: seq<(nat, V)>, outputs: seq<(nat, V)>)
    | Announce(announced: A)
    | SparkExit(exits: seq<(nat, V)>)

  datatype Payloads<!I, !A, !V> = Payloads(issue: Codec<I>, announcement: Codec<A>, proof: Codec<V>) {
    function Minting(): Codec<(I, Option<seq<(nat, V)>>)> {
      PairOf(issue, OptionOf(MapOf(proof)))
    }

    function Moving(): Codec<(seq<(nat, V)>, seq<(nat, V)>)> {
      PairOf(MapOf(proof), MapOf(proof))
    }
  }

  /** Which payloads come back. */
  datatype Validity<!I, !A, !V> = Validity(issue: I -> bool, announcement: A -> bool, proof: V -> bool)

  function TypeBytes<I, A, V>(p: Payloads<I, A, V>, t: TxType<I, A, V>): seq<Byte> {
    match t
    case Issue(minted, a) => [ISSUE_FLAG] + p.Minting().encode((a, minted))
    case Transfer(inputs, outputs) => [TRANSFER_FLAG] + p.Moving().encode((inputs, outputs))
    case Announce(a) => [ANNOUNCEMENT_FLAG] + p.announcement.encode(a)
    case SparkExit(m) => [SPARK_EXIT_FLAG] + MapOf(p.proof).encode(m)
  }

  function ReadType<I, A, V>(p: Payloads<I, A, V>, s: seq<Byte>): Option<(TxType<I, A, V>, seq<Byte>)> {
    if s == [] then None
    else if s[0] == ISSUE_FLAG then
      match p.Minting().decode(s[1..])
      case None => None
      case Some(((a, minted), rest)) => Some((Issue(minted, a), rest))
    else if s[0] == TRANSFER_FLAG then
      match p.Moving().decode(s[1..])
      case None => None
      case Some(((inputs, outputs), rest)) => Some((Transfer(inputs, outputs), rest))
    else if s[0] == ANNOUNCEMENT_FLAG then
      match p.announcement.decode(s[1..])
      case None => None
      case Some((a, rest)) => Some((Announce(a), rest))
    else if s[0] == SPARK_EXIT_FLAG then
      match MapOf(p.proof).decode(s[1..])
      case None => None
      case Some((m, rest)) => Some((SparkExit(m), rest))
    else None
  }

  function TypeOf<I, A, V>(p: Payloads<I, A, V>): Codec<TxType<I, A, V>> {
    Codec((t: TxType<I, A, V>) => TypeBytes(p, t), s => ReadType(p, s))
  }

  ghost predicate AllDelimited<I(!new), A(!new), V(!new)>(p: Payloads<I, A, V>, v: Validity<I, A, V>) {
    SelfDelimiting(p.issue, v.issue) && SelfDelimiting(p.announcement, v.announcement) && SelfDelimiting(p.proof, v.proof)
  }

  ghost function ValidType<I(!new), A(!new), V(!new)>(v: Validity<I, A, V>): TxType<I, A, V> -> bool {
    (t: TxType<I, A, V>) =>
      match t
      case Issue(minted, a) => ValidPair(v.issue, ValidOption(ValidMap(v.proof)))((a, minted))
      case Transfer(inputs, outputs) => ValidPair(ValidMap(v.proof), ValidMap(v.proof))((inputs, outputs))
      case Announce(a) => v.announcement(a)
      case SparkExit(m) => ValidMap(v.proof)(m)
  }

  lemma PartsDelimited<I(!new), A(!new), V(!new)>(p: Payloads<I, A, V>, v: Validity<I, A, V>)
    requires AllDelimited(p, v)
    ensures SelfDelimiting(MapOf(p.proof), ValidMap(v.proof))
    ensures SelfDelimiting(p.Minting(), ValidPair(v.issue, ValidOption(ValidMap(v.proof))))
    ensures SelfDelimiting(p.Moving(), ValidPair(ValidMap(v.proof), ValidMap(v.proof)))
  {
    hide SelfDelimiting, MapOf, OptionOf, PairOf, ValidMap, ValidOption, ValidPair;
    MapDelimited(p.proof, v.proof);
    OptionDelimited(MapOf(p.proof), ValidMap(v.proof));
    PairDelimited(p.issue, v.issue, OptionOf(MapOf(p.proof)), ValidOption(ValidMap(v.proof)));
    PairDelimited(MapOf(p.proof), ValidMap(v.proof), MapOf(p.proof), ValidMap(v.proof));
  }

  /** Every transaction type comes back with what follows it left over. */
  lemma TypeReadBack<I(!new), A(!new), V(!new)>(p: Payloads<I, A, V>, v: Validity<I, A, V>, t: TxType<I, A, V>, s: seq<Byte>)
    requires AllDelimited(p, v) && ValidType(v)(t)
    ensures ReadType(p, TypeBytes(p, t) + s) == Some((t, s))
  {
    hide MapOf, ValidMap, ValidOption, ValidPair, p.Minting, p.Moving;
    PartsDelimited(p, v);
    var bytes := TypeBytes(p, t) + s;
    match t
    case Issue(minted, a) => assert bytes[1..] == p.Minting().encode((a, minted)) + s;
    case Transfer(inputs, outputs) => assert bytes[1..] == p.Moving().encode((inputs, outputs)) + s;
    case Announce(a) => assert bytes[1..] == p.announcement.encode(a) + s;
    case SparkExit(m) => assert bytes[1..] == MapOf(p.proof).encode(m) + s;
  }

  lemma TypeDelimited<I(!new), A(!new), V(!new)>(p: Payloads<I, A, V>, v: Validity<I, A, V>)
    requires AllDelimited(p, v)
    ensures SelfDelimiting(TypeOf(p), ValidType(v))
  {
    hide TypeBytes, ReadType, ValidType, AllDelimited;
    forall t: TxType<I, A, V>, s: seq<Byte> | ValidType(v)(t)
      ensures TypeOf(p).decode(TypeOf(p).encode(t) + s) == Some((t, s))
    {
      TypeReadBack(p, v, t, s);
    }
  }

  /** A transaction is its Bitcoin transaction and its type; a list of them too
      comes back up to the size limit. */
  lemma TransactionsDelimited<B(!new), I(!new), A(!new), V(!new)>(
      b: Codec<B>, validB: B -> bool, p: Payloads<I, A, V>, v: Validity<I, A, V>)
    requires SelfDelimiting(b, validB) && AllDelimited(p, v)
    ensures SelfDelimiting(PairOf(b, TypeOf(p)), ValidPair(validB, ValidType(v)))
    ensures SelfDelimiting(ListOf(PairOf(b, TypeOf(p))), ValidList(ValidPair(validB, ValidType(v))))
  {
    hide SelfDelimiting, TypeOf, ValidType, PairOf, ListOf, ValidPair, ValidList;
    TypeDelimited(p, v);
    PairDelimited(b, validB, TypeOf(p), ValidType(v));
    ListOfDelimited(PairOf(b, TypeOf(p)), ValidPair(validB, ValidType(v)));
  }

  /** With receipt proofs in their own format, only the contents of the proofs, the
      announcements and the Bitcoin transactions need codecs from outside. */
  lemma ReceiptTransactionsDelimited<B(!new), I(!new), A(!new), P(!new)>(
      b: Codec<B>, validB: B -> bool, issue: Codec<I>, validI: I -> bool, announcement: Codec<A>, validA: A -> bool,
      contents: ReceiptCodecs.Contents<P>, validP: ((ReceiptCodecs.Kind, P)) -> bool)
    requires SelfDelimiting(b, validB) && SelfDelimiting(issue, validI) && SelfDelimiting(announcement, validA)
    requires ReceiptCodecs.ContentsDelimited(contents, validP)
    ensures SelfDelimiting(PairOf(b, TypeOf(Payloads(issue, announcement, ReceiptCodecs.ProofOf(contents)))),
                           ValidPair(validB, ValidType(Validity(validI, validA, validP))))
  {
    hide SelfDelimiting, TypeOf, ValidType, PairOf, ListOf, ValidPair, ValidList, ReceiptCodecs.ProofOf;
    ReceiptCodecs.ProofDelimited(contents, validP);
    TransactionsDelimited(b, validB, Payloads(issue, announcement, ReceiptCodecs.ProofOf(contents)), Validity(validI, validA, validP));
  }

  // ---------- writing

  method EncodeOptionMap<V>(c: Codec<V>, m: Option<seq<(nat, V)>>, w: Writer) returns (len: nat)
    modifies w
    ensures w.buf == old(w.buf) + OptionOf(MapOf(c)).encode(m) && len == |OptionOf(MapOf(c)).encode(m)|
  {
    hide MapBytes;
    len := 1;
    match m {
      case Some(proofs) =>
        var _ := Write(U8(), 1, w);
        var n := EncodeMap(c, proofs, w);
        len := len + n;
      case None =>
        var _ := Write(U8(), 0, w);
    }
  }

  method EncodeIssue<I, A, V>(p: Payloads<I, A, V>, a: I, minted: Option<seq<(nat, V)>>, w: Writer) returns (len: nat)
    modifies w
    ensures w.buf == old(w.buf) + p.Minting().encode((a, minted)) && len == |p.Minting().encode((a, minted))|
  {
    hide OptionBytes, MapOf;
    len := Write(p.issue, a, w);
    var n := EncodeOptionMap(p.proof, minted, w);
    len := len + n;
  }

  method EncodeTransfer<I, A, V>(p: Payloads<I, A, V>, inputs: seq<(nat, V)>, outputs: seq<(nat, V)>, w: Writer)
    returns (len: nat)
    modifies w
    ensures w.buf == old(w.buf) + p.Moving().encode((inputs, outputs)) && len == |p.Moving().encode((inputs, outputs))|
  {
    hide MapBytes;
    len := EncodeMap(p.proof, inputs, w);
    var n := EncodeMap(p.proof, outputs, w);
    len := len + n;
  }

  method EncodeTxType<I, A, V>(p: Payloads<I, A, V>, t: TxType<I, A, V>, w: Writer) returns (len: nat)
    modifies w
    ensures w.buf == old(w.buf) + TypeBytes(p, t) && len == |TypeBytes(p, t)|
    ensures len > 0 && w.buf[|old(w.buf)|] == match t case Issue(_, _) => 0 case Transfer(_, _) => 1 case Announce(_) => 2 case SparkExit(_) => 4
  {
    hide MapBytes, p.Minting, p.Moving;
    var n;
    match t {
      case Issue(minted, a) =>
        len := Write(U8(), ISSUE_FLAG, w);
        n := EncodeIssue(p, a, minted, w);
        len := len + n;
      case Transfer(inputs, outputs) =>
        len := Write(U8(), TRANSFER_FLAG, w);
        n := EncodeTransfer(p, inputs, outputs, w);
        len := len + n;
      case Announce(a) =>
        len := Write(U8(), ANNOUNCEMENT_FLAG, w);
        n := Write(p.announcement, a, w);
        len := len + n;
      case SparkExit(m) =>
        len := Write(U8(), SPARK_EXIT_FLAG, w);
        n := EncodeMap(p.proof, m, w);
        len := len + n;
    }
  }

  method EncodeTransaction<B, I, A, V>(b: Codec<B>, p: Payloads<I, A, V>, tx: (B, TxType<I, A, V>), w: Writer)
    returns (len: nat)
    modifies w
    ensures w.buf == old(w.buf) + PairOf(b, TypeOf(p)).encode(tx) && len == |PairOf(b, TypeOf(p)).encode(tx)|
  {
    hide TypeBytes;
    len := Write(b, tx.0, w);
    var n := EncodeTxType(p, tx.1, w);
    len := len + n;
  }

  // ---------- reading

  method DecodeOptionMap<V>(c: Codec<V>, r: Reader) returns (o: Option<Option<seq<(nat, V)>>>)
    modifies r
    ensures ReadAs(OptionOf(MapOf(c)), old(r.data), o, r.data)
  {
    hide ReadMap;
    var value := Read(U8(), r);
    if value.None? {
      return None;
    }
    if value.value == 0 {
      return Some(None);
    }
    var m := DecodeMap(c, r);
    if m.None? {
      return None;
    }
    return Some(m);
  }

  method DecodeIssue<I, A, V>(p: Payloads<I, A, V>, r: Reader) returns (o: Option<(I, Option<seq<(nat, V)>>)>)
    modifies r
    ensures ReadAs(p.Minting(), old(r.data), o, r.data)
  {
    hide ReadOption, MapOf;
    var a := Read(p.issue, r);
    if a.None? {
      return None;
    }
    var minted := DecodeOptionMap(p.proof, r);
    if minted.None? {
      return None;
    }
    return Some((a.value, minted.value));
  }

  method DecodeTransfer<I, A, V>(p: Payloads<I, A, V>, r: Reader) returns (o: Option<(seq<(nat, V)>, seq<(nat, V)>)>)
    modifies r
    ensures ReadAs(p.Moving(), old(r.data), o, r.data)
  {
    hide ReadMap;
    var inputs := DecodeMap(p.proof, r);
    if inputs.None? {
      return None;
    }
    var outputs := DecodeMap(p.proof, r);
    if outputs.None? {
      return None;
    }
    return Some((inputs.value, outputs.value));
  }

  method DecodeTxType<I, A, V>(p: Payloads<I, A, V>, r: Reader) returns (o: Option<TxType<I, A, V>>)
    modifies r
    ensures ReadAs(TypeOf(p), old(r.data), o, r.data)
    ensures o.Some? ==>
              && old(r.data) != []
              && old(r.data)[0] == match o.value case Issue(_, _) => 0 case Transfer(_, _) => 1 case Announce(_) => 2 case SparkExit(_) => 4
  {
    hide MapOf, p.Minting, p.Moving;
    var kind := Read(U8(), r);
    if kind.None? {
      return None;
    }
    if kind.value == ISSUE_FLAG {
      var issue := DecodeIssue(p, r);
      o := if issue.None? then None else Some(Issue(issue.value.1, issue.value.0));
    } else if kind.value == TRANSFER_FLAG {
      var transfer := DecodeTransfer(p, r);
      o := if transfer.None? then None else Some(Transfer(transfer.value.0, transfer.value.1));
    } else if kind.value == ANNOUNCEMENT_FLAG {
      var a := Read(p.announcement, r);
      o := if a.None? then None else Some(Announce(a.value));
    } else if kind.value == SPARK_EXIT_FLAG {
      var m := DecodeMap(p.proof, r);
      o := if m.None? then None else Some(SparkExit(m.value));
    } else {
      o := None;
    }
  }

  method DecodeTransaction<B, I, A, V>(b: Codec<B>, p: Payloads<I, A, V>, r: Reader) returns (o: Option<(B, TxType<I, A, V>)>)
    modifies r
    ensures ReadAs(PairOf(b, TypeOf(p)), old(r.data), o, r.data)
  {
    hide ReadType;
    var bitcoin := Read(b, r);
    if bitcoin.None? {
      return None;
    }
    var t := DecodeTxType(p, r);
    if t.None? {
      return None;
    }
    return Some((bitcoin.value, t.value));
  }

  // ---------- inventories

  datatype Inventory<T, H, F> = Ltx(txid: T) | SparkTx(hash: H) | SparkSignatures(signed: H) | SparkFreeze(freeze: F)

  const INVENTORY_LTX_FLAG: Byte := 0
  const INVENTORY_SPARK_TX_FLAG: Byte := 1
  const INVENTORY_SPARK_SIG_FLAG: Byte := 2
  const INVENTORY_SPARK_FREEZE_FLAG: Byte := 3

  datatype Ids<!T, !H, !F> = Ids(txid: Codec<T>, hash: Codec<H>, freeze: Codec<F>)

  function InventoryBytes<T, H, F>(c: Ids<T, H, F>, i: Inventory<T, H, F>): seq<Byte> {
    match i
    case Ltx(t) => [INVENTORY_LTX_FLAG] + c.txid.encode(t)
    case SparkTx(h) => [INVENTORY_SPARK_TX_FLAG] + c.hash.encode(h)
    case SparkSignatures(h) => [INVENTORY_SPARK_SIG_FLAG] + c.hash.encode(h)
    case SparkFreeze(f) => [INVENTORY_SPARK_FREEZE_FLAG] + c.freeze.encode(f)
  }

  function ReadInventory<T, H, F>(c: Ids<T, H, F>, s: seq<Byte>): Option<(Inventory<T, H, F>, seq<Byte>)> {
    if s == [] then None
    else if s[0] == INVENTORY_LTX_FLAG then
      match c.txid.decode(s[1..])
      case None => None
      case Some((t, rest)) => Some((Ltx(t), rest))
    else if s[0] == INVENTORY_SPARK_TX_FLAG then
      match c.hash.decode(s[1..])
      case None => None
      case Some((h, rest)) => Some((SparkTx(h), rest))
    else if s[0] == INVENTORY_SPARK_SIG_FLAG then
      match c.hash.decode(s[1..])
      case None => None
      case Some((h, rest)) => Some((SparkSignatures(h), rest))
    else if s[0] == INVENTORY_SPARK_FREEZE_FLAG then
      match c.freeze.decode(s[1..])
      case None => None
      case Some((f, rest)) => Some((SparkFreeze(f), rest))
    else None
  }

  lemma InventoryReadBack<T(!new), H(!new), F(!new)>(c: Ids<T, H, F>, i: Inventory<T, H, F>, s: seq<Byte>)
    requires SelfDelimiting(c.txid, t => true) && SelfDelimiting(c.hash, h => true) && SelfDelimiting(c.freeze, f => true)
    ensures ReadInventory(c, InventoryBytes(c, i) + s) == Some((i, s))
  {
    var bytes := InventoryBytes(c, i) + s;
    match i
    case Ltx(t) => assert bytes[1..] == c.txid.encode(t) + s;
    case SparkTx(h) => assert bytes[1..] == c.hash.encode(h) + s;
    case SparkSignatures(h) => assert bytes[1..] == c.hash.encode(h) + s;
    case SparkFreeze(f) => assert bytes[1..] == c.freeze.encode(f) + s;
  }

  method EncodeInventory<T, H, F>(c: Ids<T, H, F>, i: Inventory<T, H, F>, w: Writer) returns (len: nat)
    modifies w
    ensures w.buf == old(w.buf) + InventoryBytes(c, i) && len == |InventoryBytes(c, i)|
    ensures len > 0 && w.buf[|old(w.buf)|] == match i case Ltx(_) => 0 case SparkTx(_) => 1 case SparkSignatures(_) => 2 case SparkFreeze(_) => 3
  {
    var n;
    match i {
      case Ltx(t) =>
        len := Write(U8(), INVENTORY_LTX_FLAG, w);
        n := Write(c.txid, t, w);
      case SparkTx(h) =>
        len := Write(U8(), INVENTORY_SPARK_TX_FLAG, w);
        n := Write(c.hash, h, w);
      case SparkSignatures(h) =>
        len := Write(U8(), INVENTORY_SPARK_SIG_FLAG, w);
        n := Write(c.hash, h, w);
      case SparkFreeze(f) =>
        len := Write(U8(), INVENTORY_SPARK_FREEZE_FLAG, w);
        n := Write(c.freeze, f, w);
    }
    len := len + n;
  }

  function InventoryOf<T, H, F>(c: Ids<T, H, F>): Codec<Inventory<T, H, F>> {
    Codec((i: Inventory<T, H, F>) => InventoryBytes(c, i), s => ReadInventory(c, s))
  }

  method DecodeInventory<T, H, F>(c: Ids<T, H, F>, r: Reader) returns (o: Option<Inventory<T, H, F>>)
    modifies r
    ensures ReadAs(InventoryOf(c), old(r.data), o, r.data)
    ensures o.Some? ==>
              && old(r.data) != []
              && old(r.data)[0] == match o.value case Ltx(_) => 0 case SparkTx(_) => 1 case SparkSignatures(_) => 2 case SparkFreeze(_) => 3
  {
    var flag := Read(U8(), r);
    if flag.None? {
      return None;
    }
    if flag.value == INVENTORY_LTX_FLAG {
      var t := Read(c.txid, r);
      o := if t.None? then None else Some(Ltx(t.value));
    } else if flag.value == INVENTORY_SPARK_TX_FLAG {
      var h := Read(c.hash, r);
      o := if h.None? then None else Some(SparkTx(h.value));
    } else if flag.value == INVENTORY_SPARK_SIG_FLAG {
      var h := Read(c.hash, r);
      o := if h.None? then None else Some(SparkSignatures(h.value));
    } else if flag.value == INVENTORY_SPARK_FREEZE_FLAG {
      var f := Read(c.freeze, r);
      o := if f.None? then None else Some(SparkFreeze(f.value));
    } else {
      o := None;
    }
  }
}
