/** Vectors as the embedding cache stores them: little-endian 32-bit blobs. */
module EmbedCodec {
  import opened Wrappers
  import opened Float32

  type Byte = b: nat | b < 0x100

  datatype HybridVec = HybridVec(dense: seq<Number>, indices: seq<int>, values: seq<Number>)

  /** One table row without its key; NULL blobs are `None`. */
  datatype Entry = Entry(dense: seq<Byte>, indices: Option<seq<Byte>>, values: Option<seq<Byte>>, ts: int)

  // ---------------------------------------------------------------- words

  function PackWord(w: Word): (b: seq<Byte>)
    ensures |b| == 4
  {
    [w % 0x100, w / 0x100 % 0x100, w / 0x1_0000 % 0x100, w / 0x100_0000]
  }

  function UnpackWord(b: seq<Byte>): Word
    requires |b| == 4
  {
    var b0: nat, b1: nat, b2: nat, b3: nat := b[0], b[1], b[2], b[3];
    b0 + 0x100 * b1 + 0x1_0000 * b2 + 0x100_0000 * b3
  }

  function PackWords(ws: seq<Word>): (b: seq<Byte>)
    ensures |b| == 4 * |ws|
  {
    if ws == [] then [] else PackWord(ws[0]) + PackWords(ws[1..])
  }

  /** `len(blob) // 4` words. */
  function UnpackWords(b: seq<Byte>): (ws: seq<Word>)
    ensures |ws| == |b| / 4
  {
    if |b| < 4 then [] else [UnpackWord(b[..4])] + UnpackWords(b[4..])
  }

  /** The least significant byte comes first. */
  lemma LeastFirst(w: Word)
    ensures w < 0x100 ==> PackWord(w) == [w, 0, 0, 0]
    ensures PackWord(w)[0] == w % 0x100 && PackWord(w)[1..] == PackWord(w / 0x100)[..3]
  {
    assert w / 0x100 / 0x100 == w / 0x1_0000 && w / 0x100 / 0x1_0000 == w / 0x100_0000;
    assert w / 0x100_0000 % 0x100 == w / 0x100_0000;
  }

  lemma WordRoundTrip(w: Word)
    ensures UnpackWord(PackWord(w)) == w
  {
    assert w == w % 0x100 + 0x100 * (w / 0x100);
    assert w / 0x100 == w / 0x100 % 0x100 + 0x100 * (w / 0x1_0000);
    assert w / 0x1_0000 == w / 0x1_0000 % 0x100 + 0x100 * (w / 0x100_0000);
  }

  lemma BytesRoundTrip(b: seq<Byte>)
    requires |b| == 4
    ensures PackWord(UnpackWord(b)) == b
  {
    var b0: nat, b1: nat, b2: nat, b3: nat := b[0], b[1], b[2], b[3];
    var w := UnpackWord(b);
    assert w == b0 + 0x100 * (b1 + 0x100 * (b2 + 0x100 * b3));
    assert w / 0x100 == b1 + 0x100 * (b2 + 0x100 * b3);
    assert w / 0x1_0000 == b2 + 0x100 * b3;
    assert w / 0x100_0000 == b3;
  }

  /** Packing and unpacking undo each other, in both directions. */
  lemma {:induction false} WordsRoundTrip(ws: seq<Word>)
    ensures UnpackWords(PackWords(ws)) == ws
  {
    if ws != [] {
      var b := PackWords(ws);
      assert b[..4] == PackWord(ws[0]) && b[4..] == PackWords(ws[1..]);
      WordRoundTrip(ws[0]);
      WordsRoundTrip(ws[1..]);
    }
  }

  lemma {:induction false} BlobRoundTrip(b: seq<Byte>)
    requires |b| % 4 == 0
    ensures PackWords(UnpackWords(b)) == b
  {
    if b != [] {
      BytesRoundTrip(b[..4]);
      BlobRoundTrip(b[4..]);
      assert UnpackWords(b)[1..] == UnpackWords(b[4..]);
      assert b == b[..4] + b[4..];
    }
  }

  // ---------------------------------------------------------------- signed integers

  predicate Signed32(i: int) {
    -0x8000_0000 <= i < 0x8000_0000
  }

  /** Two's complement. */
  function ToWord(i: int): Word
    requires Signed32(i)
  {
    if i < 0 then i + 0x1_0000_0000 else i
  }

  function ToInt(w: Word): (i: int)
    ensures Signed32(i) && ToWord(i) == w
  {
    if w < 0x8000_0000 then w else w - 0x1_0000_0000
  }

  function PackInts(ints: seq<int>): (b: seq<Byte>)
    requires forall k :: 0 <= k < |ints| ==> Signed32(ints[k])
  {
    PackWords(seq(|ints|, k requires 0 <= k < |ints| => ToWord(ints[k])))
  }

  function UnpackInts(b: seq<Byte>): (ints: seq<int>)
    ensures |ints| == |b| / 4
  {
    var ws := UnpackWords(b);
    seq(|ws|, k requires 0 <= k < |ws| => ToInt(ws[k]))
  }

  lemma IntsRoundTrip(ints: seq<int>)
    requires forall k :: 0 <= k < |ints| ==> Signed32(ints[k])
    ensures UnpackInts(PackInts(ints)) == ints
  {
    WordsRoundTrip(seq(|ints|, k requires 0 <= k < |ints| => ToWord(ints[k])));
  }

  // ---------------------------------------------------------------- floats

  predicate Floats(ns: seq<Number>) {
    forall k :: 0 <= k < |ns| ==> Fits(ns[k])
  }

  function PackFloats(ns: seq<Number>): (b: seq<Byte>)
    requires Floats(ns)
  {
    PackWords(seq(|ns|, k requires 0 <= k < |ns| => Packed(ns[k])))
  }

  function UnpackFloats(b: seq<Byte>): (ns: seq<Number>)
    ensures |ns| == |b| / 4
  {
    var ws := UnpackWords(b);
    seq(|ws|, k requires 0 <= k < |ws| => Unpacked(ws[k]))
  }

  /** Every number replaced by its nearest 32-bit float. */
  function RoundedNumbers(ns: seq<Number>): (r: seq<Number>)
    ensures |r| == |ns|
  {
    seq(|ns|, k requires 0 <= k < |ns| => Float32.Rounded(ns[k]))
  }

  lemma FloatsRoundTrip(ns: seq<Number>)
    requires Floats(ns)
    ensures UnpackFloats(PackFloats(ns)) == RoundedNumbers(ns)
  {
    var ws := seq(|ns|, k requires 0 <= k < |ns| => Packed(ns[k]));
    WordsRoundTrip(ws);
    forall k | 0 <= k < |ns|
      ensures Unpacked(ws[k]) == Float32.Rounded(ns[k])
    {
      UnpackedPacked(ns[k]);
    }
  }

  // ---------------------------------------------------------------- rows

  /** Packing succeeds: otherwise `struct.pack` raises. */
  predicate Packable(v: HybridVec) {
    Floats(v.dense) && Floats(v.values) && forall k :: 0 <= k < |v.indices| ==> Signed32(v.indices[k])
  }

  function Rounded(v: HybridVec): HybridVec {
    HybridVec(RoundedNumbers(v.dense), v.indices, RoundedNumbers(v.values))
  }

  function Encode(v: HybridVec, now: int): Entry
    requires Packable(v)
  {
    Entry(PackFloats(v.dense), if v.indices == [] then None else Some(PackInts(v.indices)),
          if v.values == [] then None else Some(PackFloats(v.values)), now)
  }

  function Decode(e: Entry): HybridVec {
    HybridVec(UnpackFloats(e.dense), UnpackInts(e.indices.GetOr([])), UnpackFloats(e.values.GetOr([])))
  }

  /** What comes back from the table is the vector rounded to 32 bits, no matter
      which of the two sparse blobs were stored as NULL. */
  lemma DecodeEncode(v: HybridVec, now: int)
    requires Packable(v)
    ensures Decode(Encode(v, now)) == Rounded(v)
    ensures Encode(v, now).indices.None? <==> v.indices == []
    ensures Encode(v, now).values.None? <==> v.values == []
    ensures Encode(v, now).ts == now
  {
    FloatsRoundTrip(v.dense);
    FloatsRoundTrip(v.values);
    IntsRoundTrip(v.indices);
  }

  predicate AllExact(ns: seq<Number>) {
    forall k :: 0 <= k < |ns| ==> Exact(ns[k])
  }

  /** The round trip is invisible exactly for vectors of 32-bit values. */
  lemma RoundTripInvisibleIff(v: HybridVec, now: int)
    requires Packable(v)
    ensures Decode(Encode(v, now)) == v <==> AllExact(v.dense) && AllExact(v.values)
  {
    DecodeEncode(v, now);
    RoundedNumbersIff(v.dense);
    RoundedNumbersIff(v.values);
  }

  lemma RoundedNumbersIff(ns: seq<Number>)
    ensures RoundedNumbers(ns) == ns <==> AllExact(ns)
  {
    forall k | 0 <= k < |ns|
      ensures RoundedNumbers(ns)[k] == ns[k] <==> Exact(ns[k])
    {
      RoundedIff(ns[k]);
    }
  }

  lemma RoundingTwice(v: HybridVec)
    ensures Rounded(Rounded(v)) == Rounded(v)
  {
    RoundedNumbersTwice(v.dense);
    RoundedNumbersTwice(v.values);
  }

  lemma RoundedNumbersTwice(ns: seq<Number>)
    ensures RoundedNumbers(RoundedNumbers(ns)) == RoundedNumbers(ns)
  {
    forall k | 0 <= k < |ns|
      ensures RoundedNumbers(RoundedNumbers(ns))[k] == RoundedNumbers(ns)[k]
    {
      RoundedTwice(ns[k]);
    }
  }
}
