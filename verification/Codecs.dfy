/** Values on the wire: writers, readers, and codecs that know where they end. */
module Codecs {
  import opened Options
  import opened Bytes

  class Writer {
    var buf: seq<Byte>
    /** How many bytes a single call takes at most, if there is a limit. */
    const limit: Option<nat>

    constructor (limit: Option<nat>)
      ensures buf == [] && this.limit == limit
    {
      buf, this.limit := [], limit;
    }

    /** The part of the bytes that a single call takes. */
    function Taken(bytes: seq<Byte>): (r: seq<Byte>)
      ensures r <= bytes
      ensures r == bytes <==> limit.None? || |bytes| <= limit.value
    {
      if limit.Some? && limit.value < |bytes| then bytes[..limit.value] else bytes
    }

    /** A single call, which may take less than it is given. */
    method WriteOnce(bytes: seq<Byte>) returns (len: nat)
      modifies this
      ensures buf == old(buf) + Taken(bytes) && len == |Taken(bytes)|
    {
      buf := buf + Taken(bytes);
      len := |Taken(bytes)|;
    }

    method WriteAll(bytes: seq<Byte>) returns (len: nat)
      modifies this
      ensures buf == old(buf) + bytes && len == |bytes|
    {
      buf := buf + bytes;
      len := |bytes|;
    }
  }

  class Reader {
    var data: seq<Byte>

    constructor (bytes: seq<Byte>)
      ensures data == bytes
    {
      data := bytes;
    }

    method ReadExact(n: nat) returns (o: Option<seq<Byte>>)
      modifies this
      ensures o.Some? <==> n <= |old(data)|
      ensures o.Some? ==> o.value == old(data)[..n] && data == old(data)[n..]
    {
      if |data| < n {
        return None;
      }
      o := Some(data[..n]);
      data := data[n..];
    }
  }

  datatype Codec<!T> = Codec(encode: T -> seq<Byte>, decode: seq<Byte> -> Option<(T, seq<Byte>)>)

  /** Whatever follows the encoding of a value is left for the next reader. */
  ghost predicate SelfDelimiting<T(!new)>(c: Codec<T>, valid: T -> bool) {
    forall x: T, s: seq<Byte> | valid(x) :: c.decode(c.encode(x) + s) == Some((x, s))
  }

  /** No encoding starts another, so a stream of encodings reads one way only. */
  lemma NoAmbiguity<T(!new)>(c: Codec<T>, valid: T -> bool, x: T, s: seq<Byte>, y: T, t: seq<Byte>)
    requires SelfDelimiting(c, valid) && valid(x) && valid(y) && c.encode(x) + s == c.encode(y) + t
    ensures x == y && s == t
  {
    assert c.decode(c.encode(x) + s) == Some((x, s));
    assert c.decode(c.encode(y) + t) == Some((y, t));
  }

  /** `o` is what the codec decodes from `before`, and leaves `after`. */
  ghost predicate ReadAs<T>(c: Codec<T>, before: seq<Byte>, o: Option<T>, after: seq<Byte>) {
    match c.decode(before)
    case None => o.None?
    case Some((x, rest)) => o == Some(x) && after == rest
  }

  /** A value whose own encoding is not part of this model. */
  method Write<T>(c: Codec<T>, x: T, w: Writer) returns (len: nat)
    modifies w
    ensures w.buf == old(w.buf) + c.encode(x) && len == |c.encode(x)|
  {
    len := w.WriteAll(c.encode(x));
  }

  method Read<T>(c: Codec<T>, r: Reader) returns (o: Option<T>)
    modifies r
    ensures ReadAs(c, old(r.data), o, r.data)
  {
    var read := c.decode(r.data);
    if read.None? {
      return None;
    }
    r.data := read.value.1;
    return Some(read.value.0);
  }

  // ---------- numbers

  function ReadU8(s: seq<Byte>): Option<(Byte, seq<Byte>)> {
    if s == [] then None else Some((s[0], s[1..]))
  }

  function U8(): Codec<Byte> {
    Codec((b: Byte) => [b], ReadU8)
  }

  function ReadU32(s: seq<Byte>): Option<(nat, seq<Byte>)> {
    if |s| < 4 then None else Some((FromLittleEndian(s[..4]), s[4..]))
  }

  /** Numbers above the limit lose their upper part, as a cast does. */
  function U32(): Codec<nat> {
    Codec((n: nat) => LittleEndian(n, 4), ReadU32)
  }

  predicate FitsU32(n: nat) {
    n < Pow256(4)
  }

  lemma U32Delimited(n: nat, s: seq<Byte>)
    ensures ReadU32(LittleEndian(n, 4) + s) == Some((FromLittleEndian(LittleEndian(n, 4)), s))
    ensures ReadU32(LittleEndian(n, 4) + s) == Some((n, s)) <==> FitsU32(n)
  {
    hide LittleEndian, FromLittleEndian, Pow256;
    LittleEndianRoundTrip(n, 4);
    var bytes := LittleEndian(n, 4) + s;
    assert bytes[..4] == LittleEndian(n, 4) && bytes[4..] == s;
  }

  lemma U32IsDelimited()
    ensures SelfDelimiting(U32(), FitsU32)
  {
    hide FitsU32, ReadU32, LittleEndian;
    forall n: nat, s: seq<Byte> | FitsU32(n) ensures U32().decode(U32().encode(n) + s) == Some((n, s)) {
      U32Delimited(n, s);
    }
  }

  // ---------- one after the other

  function PairBytes<A, B>(a: Codec<A>, b: Codec<B>, x: (A, B)): seq<Byte> {
    a.encode(x.0) + b.encode(x.1)
  }

  function ReadPair<A, B>(a: Codec<A>, b: Codec<B>, s: seq<Byte>): Option<((A, B), seq<Byte>)> {
    match a.decode(s)
    case None => None
    case Some((x, rest)) =>
      match b.decode(rest)
      case None => None
      case Some((y, last)) => Some(((x, y), last))
  }

  function PairOf<A, B>(a: Codec<A>, b: Codec<B>): Codec<(A, B)> {
    Codec((x: (A, B)) => PairBytes(a, b, x), s => ReadPair(a, b, s))
  }

  ghost function ValidPair<A, B>(validA: A -> bool, validB: B -> bool): ((A, B)) -> bool {
    (x: (A, B)) => validA(x.0) && validB(x.1)
  }

  lemma PairReadBack<A(!new), B(!new)>(a: Codec<A>, validA: A -> bool, b: Codec<B>, validB: B -> bool, x: (A, B), s: seq<Byte>)
    requires SelfDelimiting(a, validA) && SelfDelimiting(b, validB) && validA(x.0) && validB(x.1)
    ensures ReadPair(a, b, PairBytes(a, b, x) + s) == Some((x, s))
  {
    assert PairBytes(a, b, x) + s == a.encode(x.0) + (b.encode(x.1) + s);
  }

  lemma PairDelimited<A(!new), B(!new)>(a: Codec<A>, validA: A -> bool, b: Codec<B>, validB: B -> bool)
    requires SelfDelimiting(a, validA) && SelfDelimiting(b, validB)
    ensures SelfDelimiting(PairOf(a, b), ValidPair(validA, validB))
  {
    hide PairBytes, ReadPair;
    forall x: (A, B), s: seq<Byte> | ValidPair(validA, validB)(x)
      ensures PairOf(a, b).decode(PairOf(a, b).encode(x) + s) == Some((x, s))
    {
      PairReadBack(a, validA, b, validB, x, s);
    }
  }

  // ---------- options

  function OptionBytes<T>(c: Codec<T>, o: Option<T>): seq<Byte> {
    match o
    case None => [0]
    case Some(x) => [1] + c.encode(x)
  }

  /** Any first byte but zero announces a value. */
  function ReadOption<T>(c: Codec<T>, s: seq<Byte>): Option<(Option<T>, seq<Byte>)> {
    if s == [] then None
    else if s[0] == 0 then Some((None, s[1..]))
    else match c.decode(s[1..])
      case None => None
      case Some((x, rest)) => Some((Some(x), rest))
  }

  function OptionOf<T>(c: Codec<T>): Codec<Option<T>> {
    Codec((o: Option<T>) => OptionBytes(c, o), s => ReadOption(c, s))
  }

  ghost function ValidOption<T>(valid: T -> bool): Option<T> -> bool {
    (o: Option<T>) => o.Some? ==> valid(o.value)
  }

  lemma OptionDelimited<T(!new)>(c: Codec<T>, valid: T -> bool)
    requires SelfDelimiting(c, valid)
    ensures SelfDelimiting(OptionOf(c), ValidOption(valid))
  {
    hide SelfDelimiting, ReadOption, OptionBytes;
    forall o: Option<T>, s: seq<Byte> | ValidOption(valid)(o)
      ensures ReadOption(c, OptionBytes(c, o) + s) == Some((o, s))
    {
      OptionReadBack(c, valid, o, s);
    }
    OptionReads(c, valid);
  }

  lemma OptionReads<T(!new)>(c: Codec<T>, valid: T -> bool)
    requires forall o: Option<T>, s: seq<Byte> | ValidOption(valid)(o) :: ReadOption(c, OptionBytes(c, o) + s) == Some((o, s))
    ensures SelfDelimiting(OptionOf(c), ValidOption(valid))
  {
    hide ReadOption, OptionBytes;
  }

  lemma OptionReadBack<T(!new)>(c: Codec<T>, valid: T -> bool, o: Option<T>, s: seq<Byte>)
    requires SelfDelimiting(c, valid) && ValidOption(valid)(o)
    ensures ReadOption(c, OptionBytes(c, o) + s) == Some((o, s))
  {
    match o
    case None => assert ([0] + s)[1..] == s;
    case Some(x) => assert ([1] + c.encode(x) + s)[1..] == c.encode(x) + s;
  }

  // ---------- lists

  function ListBytes<T>(c: Codec<T>, xs: seq<T>): seq<Byte> {
    if xs == [] then [] else c.encode(xs[0]) + ListBytes(c, xs[1..])
  }

  lemma {:induction false} ListBytesAppend<T>(c: Codec<T>, xs: seq<T>, x: T)
    ensures ListBytes(c, xs + [x]) == ListBytes(c, xs) + c.encode(x)
  {
    if xs == [] {
      assert xs + [x] == [x] && [x][1..] == [];
    } else {
      assert (xs + [x])[1..] == xs[1..] + [x];
      ListBytesAppend(c, xs[1..], x);
    }
  }

  function ReadList<T>(c: Codec<T>, n: nat, s: seq<Byte>): Option<(seq<T>, seq<Byte>)> {
    if n == 0 then Some(([], s))
    else match ReadList(c, n - 1, s)
      case None => None
      case Some((xs, rest)) =>
        match c.decode(rest)
        case None => None
        case Some((x, last)) => Some((xs + [x], last))
  }

  /** Reading `n` elements of a written list gives its first `n` and leaves the others. */
  lemma {:induction false} ListDelimited<T(!new)>(c: Codec<T>, valid: T -> bool, xs: seq<T>, n: nat, s: seq<Byte>)
    requires SelfDelimiting(c, valid) && n <= |xs| && forall i | 0 <= i < |xs| :: valid(xs[i])
    ensures ReadList(c, n, ListBytes(c, xs) + s) == Some((xs[..n], ListBytes(c, xs[n..]) + s))
  {
    if n == 0 {
      assert xs[0..] == xs;
    } else {
      ListDelimited(c, valid, xs, n - 1, s);
      var rest := xs[n - 1..];
      assert rest[1..] == xs[n..];
      assert ListBytes(c, rest) + s == c.encode(xs[n - 1]) + (ListBytes(c, xs[n..]) + s);
      assert xs[..n] == xs[..n - 1] + [xs[n - 1]];
    }
  }

  function CountedBytes<T>(c: Codec<T>, xs: seq<T>): seq<Byte> {
    LittleEndian(|xs|, 4) + ListBytes(c, xs)
  }

  function ReadCounted<T>(c: Codec<T>, s: seq<Byte>): Option<(seq<T>, seq<Byte>)> {
    match ReadU32(s)
    case None => None
    case Some((n, rest)) => ReadList(c, n, rest)
  }

  function ListOf<T>(c: Codec<T>): Codec<seq<T>> {
    Codec((xs: seq<T>) => CountedBytes(c, xs), s => ReadCounted(c, s))
  }

  /** A list comes back exactly when its length fits the count; otherwise its
      beginning does, and the rest of it is left in front of what follows. */
  lemma CountedDelimited<T(!new)>(c: Codec<T>, valid: T -> bool, xs: seq<T>, s: seq<Byte>)
    requires SelfDelimiting(c, valid) && forall i | 0 <= i < |xs| :: valid(xs[i])
    ensures ReadCounted(c, CountedBytes(c, xs) + s) == Some((xs, s)) <==> FitsU32(|xs|)
  {
    hide LittleEndian, FromLittleEndian, ReadList, ListBytes, ReadU32, Pow256, SelfDelimiting;
    U32Delimited(|xs|, ListBytes(c, xs) + s);
    assert CountedBytes(c, xs) + s == LittleEndian(|xs|, 4) + (ListBytes(c, xs) + s);
    var n := FromLittleEndian(LittleEndian(|xs|, 4));
    CountIsSmaller(|xs|);
    ListDelimited(c, valid, xs, n, s);
    if FitsU32(|xs|) {
      assert xs[..n] == xs && xs[n..] == [];
      NothingWritten(c);
      assert [] + s == s;
    } else {
      assert |xs[..n]| < |xs|;
    }
  }

  lemma NothingWritten<T>(c: Codec<T>)
    ensures ListBytes(c, []) == []
  {
  }

  lemma CountIsSmaller(n: nat)
    ensures FromLittleEndian(LittleEndian(n, 4)) <= n
    ensures FromLittleEndian(LittleEndian(n, 4)) == n <==> FitsU32(n)
  {
    hide LittleEndian, FromLittleEndian, Pow256;
    LittleEndianRoundTrip(n, 4);
  }

  ghost function ValidList<T(!new)>(valid: T -> bool): seq<T> -> bool {
    (xs: seq<T>) => FitsU32(|xs|) && forall i | 0 <= i < |xs| :: valid(xs[i])
  }

  lemma ListOfDelimited<T(!new)>(c: Codec<T>, valid: T -> bool)
    requires SelfDelimiting(c, valid)
    ensures SelfDelimiting(ListOf(c), ValidList(valid))
  {
    hide CountedBytes, ReadCounted;
    forall xs: seq<T>, s: seq<Byte> | ValidList(valid)(xs)
      ensures ListOf(c).decode(ListOf(c).encode(xs) + s) == Some((xs, s))
    {
      CountedDelimited(c, valid, xs, s);
    }
  }

  method EncodeList<T>(c: Codec<T>, xs: seq<T>, w: Writer) returns (len: nat)
    modifies w
    ensures w.buf == old(w.buf) + CountedBytes(c, xs) && len == |CountedBytes(c, xs)|
  {
    hide LittleEndian, ListBytes;
    len := Write(U32(), |xs|, w);
    NothingWritten(c);
    for i := 0 to |xs|
      invariant w.buf == old(w.buf) + LittleEndian(|xs|, 4) + ListBytes(c, xs[..i])
      invariant len == 4 + |ListBytes(c, xs[..i])|
    {
      var n := Write(c, xs[i], w);
      len := len + n;
      assert xs[..i + 1] == xs[..i] + [xs[i]];
      ListBytesAppend(c, xs[..i], xs[i]);
    }
    assert xs[..|xs|] == xs;
  }

  method DecodeList<T>(c: Codec<T>, r: Reader) returns (o: Option<seq<T>>)
    modifies r
    ensures ReadAs(ListOf(c), old(r.data), o, r.data)
  {
    hide FromLittleEndian;
    var count := Read(U32(), r);
    if count.None? {
      return None;
    }
    ghost var start := r.data;
    var xs: seq<T> := [];
    for i := 0 to count.value
      invariant ReadList(c, i, start) == Some((xs, r.data))
    {
      var x := Read(c, r);
      if x.None? {
        ReadListStops(c, i + 1, count.value, start);
        return None;
      }
      xs := xs + [x.value];
    }
    return Some(xs);
  }

  lemma {:induction false} ReadListStops<T>(c: Codec<T>, i: nat, n: nat, s: seq<Byte>)
    requires i <= n && ReadList(c, i, s).None?
    ensures ReadList(c, n, s).None?
    decreases n
  {
    if i < n {
      ReadListStops(c, i, n - 1, s);
    }
  }
}
