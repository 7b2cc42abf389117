/** Ordered maps on the wire: a count and the entries in order. */
module MapCodecs {
  import opened Options
  import opened Bytes
  import opened ProofMaps
  import opened Codecs

  function EntryOf<V>(c: Codec<V>): Codec<(nat, V)> {
    PairOf(U32(), c)
  }

  ghost function ValidEntry<V>(valid: V -> bool): ((nat, V)) -> bool {
    ValidPair(FitsU32, valid)
  }

  lemma EntryDelimited<V(!new)>(c: Codec<V>, valid: V -> bool)
    requires SelfDelimiting(c, valid)
    ensures SelfDelimiting(EntryOf(c), ValidEntry(valid))
  {
    hide SelfDelimiting, U32, PairOf;
    U32IsDelimited();
    PairDelimited(U32(), FitsU32, c, valid);
  }

  function ReadMap<V>(c: Codec<V>, s: seq<Byte>): Option<(seq<(nat, V)>, seq<Byte>)> {
    match ReadCounted(EntryOf(c), s)
    case None => None
    case Some((entries, rest)) => Some((Collected(entries), rest))
  }

  function MapBytes<V>(c: Codec<V>, m: seq<(nat, V)>): seq<Byte> {
    CountedBytes(EntryOf(c), m)
  }

  function MapOf<V>(c: Codec<V>): Codec<seq<(nat, V)>> {
    Codec((m: seq<(nat, V)>) => MapBytes(c, m), s => ReadMap(c, s))
  }

  ghost predicate WellFormed<V(!new)>(valid: V -> bool, m: seq<(nat, V)>) {
    Ascending(m) && forall i | 0 <= i < |m| :: ValidEntry(valid)(m[i])
  }

  ghost function ValidMap<V(!new)>(valid: V -> bool): seq<(nat, V)> -> bool {
    (m: seq<(nat, V)>) => WellFormed(valid, m) && FitsU32(|m|)
  }

  /** A map comes back, and what follows it stays, exactly when its size fits. */
  lemma MapReadBack<V(!new)>(c: Codec<V>, valid: V -> bool, m: seq<(nat, V)>, s: seq<Byte>)
    requires SelfDelimiting(c, valid) && WellFormed(valid, m)
    ensures ReadMap(c, MapBytes(c, m) + s) == Some((m, s)) <==> FitsU32(|m|)
  {
    hide CountedBytes, ReadCounted, Collected, Ascending, ValidEntry, FitsU32;
    EntryDelimited(c, valid);
    CountedDelimited(EntryOf(c), ValidEntry(valid), m, s);
    CollectedInOrder(m);
    if !FitsU32(|m|) {
      TooManyEntries(c, valid, m, s);
    }
  }

  /** A map of too many entries comes back smaller. */
  lemma TooManyEntries<V(!new)>(c: Codec<V>, valid: V -> bool, m: seq<(nat, V)>, s: seq<Byte>)
    requires SelfDelimiting(c, valid) && WellFormed(valid, m) && !FitsU32(|m|)
    ensures ReadMap(c, MapBytes(c, m) + s).Some? && |ReadMap(c, MapBytes(c, m) + s).value.0| < |m|
  {
    hide LittleEndian, FromLittleEndian, ReadList, ListBytes, ReadU32, SelfDelimiting, Collected, ValidEntry, FitsU32;
    EntryDelimited(c, valid);
    var e := EntryOf(c);
    U32Delimited(|m|, ListBytes(e, m) + s);
    assert CountedBytes(e, m) + s == LittleEndian(|m|, 4) + (ListBytes(e, m) + s);
    var n := FromLittleEndian(LittleEndian(|m|, 4));
    CountIsSmaller(|m|);
    ListDelimited(e, ValidEntry(valid), m, n, s);
    CollectedInOrder(m[..n]);
  }

  lemma MapDelimited<V(!new)>(c: Codec<V>, valid: V -> bool)
    requires SelfDelimiting(c, valid)
    ensures SelfDelimiting(MapOf(c), ValidMap(valid))
  {
    hide MapBytes, ReadMap, FitsU32, WellFormed;
    forall m: seq<(nat, V)>, s: seq<Byte> | ValidMap(valid)(m)
      ensures MapOf(c).decode(MapOf(c).encode(m) + s) == Some((m, s))
    {
      MapReadBack(c, valid, m, s);
    }
  }

  method EncodeEntry<V>(c: Codec<V>, e: (nat, V), w: Writer) returns (len: nat)
    modifies w
    ensures w.buf == old(w.buf) + PairBytes(U32(), c, e) && len == |PairBytes(U32(), c, e)|
  {
    hide LittleEndian;
    var (key, value) := e;
    len := Write(U32(), key, w);
    var n := Write(c, value, w);
    len := len + n;
  }

  method EncodeMap<V>(c: Codec<V>, m: seq<(nat, V)>, w: Writer) returns (len: nat)
    modifies w
    ensures w.buf == old(w.buf) + MapBytes(c, m) && len == |MapBytes(c, m)|
  {
    hide LittleEndian, ListBytes, PairBytes;
    ghost var e := EntryOf(c);
    len := Write(U32(), |m|, w);
    NothingWritten(e);
    for i := 0 to |m|
      invariant w.buf == old(w.buf) + LittleEndian(|m|, 4) + ListBytes(e, m[..i])
      invariant len == 4 + |ListBytes(e, m[..i])|
    {
      var n := EncodeEntry(c, m[i], w);
      len := len + n;
      assert m[..i + 1] == m[..i] + [m[i]];
      ListBytesAppend(e, m[..i], m[i]);
    }
    assert m[..|m|] == m;
  }

  method DecodeEntry<V>(c: Codec<V>, r: Reader) returns (o: Option<(nat, V)>)
    modifies r
    ensures ReadAs(EntryOf(c), old(r.data), o, r.data)
  {
    hide FromLittleEndian;
    var key := Read(U32(), r);
    if key.None? {
      return None;
    }
    var value := Read(c, r);
    if value.None? {
      return None;
    }
    return Some((key.value, value.value));
  }

  method DecodeMap<V>(c: Codec<V>, r: Reader) returns (o: Option<seq<(nat, V)>>)
    modifies r
    ensures ReadAs(MapOf(c), old(r.data), o, r.data)
    ensures o.Some? ==> Ascending(o.value)
  {
    hide FromLittleEndian, Insert, ReadPair;
    var count := Read(U32(), r);
    if count.None? {
      return None;
    }
    ghost var start := r.data;
    var m: seq<(nat, V)> := [];
    ghost var entries: seq<(nat, V)> := [];
    for i := 0 to count.value
      invariant ReadList(EntryOf(c), i, start) == Some((entries, r.data))
      invariant m == Collected(entries)
    {
      var entry := DecodeEntry(c, r);
      if entry.None? {
        ReadListStops(EntryOf(c), i + 1, count.value, start);
        return None;
      }
      assert (entries + [entry.value])[..|entries|] == entries;
      entries := entries + [entry.value];
      m := Insert(m, entry.value.0, entry.value.1);
    }
    CollectedAscending(entries);
    return Some(m);
  }
}
