/**
 * The value model of `src/word.rs`: a 32-bit `Word`, an 8-bit `Chunk`, the
 * little-endian split of a word into four chunks and back, their embedding
 * into the field, and the helpers that assign one of them to a cell.
 */
module Words {
  import opened Wrappers
  import opened Bitwise
  import opened Halo2

  type U8 = x: nat | x < 0x100
  type U32 = x: nat | x < 0x1_0000_0000

  /** The order of the Pallas base field. */
  const PALLAS_MODULUS: nat := 0x40000000000000000000000000000000224698fc094cf91b992d30ed00000001

  function Pow256(n: nat): (p: nat)
    ensures p > 0
  {
    if n == 0 then 1 else 256 * Pow256(n - 1)
  }

  lemma Pow256Four()
    ensures Pow256(4) == 0x1_0000_0000
  {
  }

  /** The `n` little-endian bytes of `v` (its value mod 256^n). */
  function LeBytes(v: nat, n: nat): (s: seq<U8>)
    ensures |s| == n
  {
    if n == 0 then [] else [v % 256] + LeBytes(v / 256, n - 1)
  }

  /** The number whose little-endian bytes are `s`. */
  function LeValue(s: seq<U8>): (v: nat)
    ensures v < Pow256(|s|)
  {
    if s == [] then 0 else s[0] + 256 * LeValue(s[1..])
  }

  lemma {:induction false} LeValueOfLeBytes(v: nat, n: nat)
    requires v < Pow256(n)
    ensures LeValue(LeBytes(v, n)) == v
  {
    if n > 0 {
      LeValueOfLeBytes(v / 256, n - 1);
      assert LeBytes(v, n)[1..] == LeBytes(v / 256, n - 1);
    }
  }

  lemma {:induction false} LeBytesOfLeValue(s: seq<U8>)
    ensures LeBytes(LeValue(s), |s|) == s
  {
    if s != [] {
      LeBytesOfLeValue(s[1..]);
      assert LeValue(s) % 256 == s[0] && LeValue(s) / 256 == LeValue(s[1..]);
    }
  }

  /** `Word(u32)`. */
  datatype Word = Word(value: U32)
  {
    /** `Word::new`: total. */
    static function New(x: U32): (w: Word)
      ensures w.Deref() == x
    {
      Word(x)
    }

    /** `*word`, the wrapped `u32`. */
    function Deref(): U32
    {
      value
    }

    /** `decompose_4`: `to_le_bytes` of the wrapped value. */
    function Decompose4(): (b: seq<U8>)
      ensures |b| == 4
    {
      LeBytes(value, 4)
    }

    /** `compose`: `u32::from_le_bytes`. */
    static function Compose(chunks: seq<U8>): (w: Word)
      requires |chunks| == 4
    {
      Pow256Four();
      Word(LeValue(chunks))
    }

    /** `From<&Word> for Assigned<pallas::Base>`: the word as a field element. */
    function ToField(): (f: nat)
      ensures f == value
    {
      value % PALLAS_MODULUS
    }
  }

  /** `Chunk(u8)`. */
  datatype Chunk = Chunk(value: U8)
  {
    /** `Chunk::new`: total. */
    static function New(x: U8): (c: Chunk)
      ensures c.Deref() == x
    {
      Chunk(x)
    }

    /** `*chunk`, the wrapped `u8`. */
    function Deref(): U8
    {
      value
    }

    /** `From<&Chunk> for Assigned<pallas::Base>`. */
    function ToField(): (f: nat)
      ensures f == value
    {
      value % PALLAS_MODULUS
    }
  }

  lemma NewDeref(x: U32, w: Word, y: U8, c: Chunk)
    ensures Word.New(x).Deref() == x && Word.New(w.Deref()) == w
    ensures Chunk.New(y).Deref() == y && Chunk.New(c.Deref()) == c
  {
  }

  /** compose(decompose_4(w)) == w. */
  lemma ComposeDecompose(w: Word)
    ensures Word.Compose(w.Decompose4()) == w
  {
    Pow256Four();
    LeValueOfLeBytes(w.value, 4);
  }

  /** decompose_4(compose(b)) == b. */
  lemma DecomposeCompose(b: seq<U8>)
    requires |b| == 4
    ensures Word.Compose(b).Decompose4() == b
  {
    LeBytesOfLeValue(b);
  }

  /** `decompose_4` is little-endian: byte `i` is `(w / 256^i) % 256`. */
  lemma DecomposeLittleEndian(w: Word)
    ensures w.Decompose4() == [w.value % 256, (w.value / 0x100) % 256,
                               (w.value / 0x1_0000) % 256, (w.value / 0x100_0000) % 256]
  {
    var v := w.value;
    assert LeBytes(v, 4) == [v % 256] + LeBytes(v / 256, 3);
    assert LeBytes(v / 256, 3) == [(v / 256) % 256] + LeBytes(v / 256 / 256, 2);
    assert LeBytes(v / 256 / 256, 2) == [(v / 256 / 256) % 256] + LeBytes(v / 256 / 256 / 256, 1);
  }

  /** The four bytes of a word weigh back to the word. */
  lemma DecomposeWeightedSum(w: Word)
    ensures var b := w.Decompose4();
      w.value == b[0] as nat + b[1] as nat * 0x100 + b[2] as nat * 0x1_0000 + b[3] as nat * 0x100_0000
  {
    var b := w.Decompose4();
    ComposeDecompose(w);
    assert LeValue(b[3..]) == b[3];
    assert LeValue(b[2..]) == b[2] + 256 * LeValue(b[3..]);
    assert LeValue(b[1..]) == b[1] + 256 * LeValue(b[2..]);
  }

  /** Field conversion is injective on words and on chunks. */
  lemma ToFieldInjective(a: Word, b: Word, c: Chunk, d: Chunk)
    ensures a.ToField() == b.ToField() ==> a == b
    ensures c.ToField() == d.ToField() ==> c == d
  {
  }

  /** `a ^ b` on bytes. */
  function XorU8(a: U8, b: U8): U8
  {
    XorByteBound(a, b);
    Xor(a, b)
  }

  /** Byte-wise XOR of two equally long byte strings. */
  function XorEach(a: seq<U8>, b: seq<U8>): (c: seq<U8>)
    requires |a| == |b|
    ensures |c| == |a|
    ensures forall i :: 0 <= i < |a| ==> c[i] == Xor(a[i], b[i])
  {
    if a == [] then [] else [XorU8(a[0], b[0])] + XorEach(a[1..], b[1..])
  }

  /** XOR of two numbers is the byte-wise XOR of their little-endian bytes. */
  lemma {:induction false} LeValueXorEach(x: nat, y: nat, n: nat)
    requires x < Pow256(n) && y < Pow256(n)
    ensures LeValue(XorEach(LeBytes(x, n), LeBytes(y, n))) == Xor(x, y)
  {
    if n == 0 {
      assert x == 0 && y == 0;
    } else {
      var xs, ys := LeBytes(x, n), LeBytes(y, n);
      var z := XorEach(xs, ys);
      assert xs[1..] == LeBytes(x / 256, n - 1) && ys[1..] == LeBytes(y / 256, n - 1);
      assert z[1..] == XorEach(xs[1..], ys[1..]);
      LeValueXorEach(x / 256, y / 256, n - 1);
      XorBytes(x, y);
    }
  }

  /** `u32 ^ u32`, which stays within 32 bits. */
  function XorWord(x: Word, y: Word): (z: Word)
    ensures z.value == Xor(x.value, y.value)
  {
    Pow256Four();
    LeValueXorEach(x.value, y.value, 4);
    Word(Xor(x.value, y.value))
  }

  /** Composing the byte-wise XOR of two decompositions gives `x ^ y`. */
  lemma ComposeXorEach(x: Word, y: Word)
    ensures Word.Compose(XorEach(x.Decompose4(), y.Decompose4())) == XorWord(x, y)
  {
    Pow256Four();
    LeValueXorEach(x.value, y.value, 4);
  }

  /** `AssignedWord(AssignedCell<Word, F>)`: a word bound to a cell, with its
   *  value when it was computed. */
  datatype AssignedWord = AssignedWord(value: Option<Word>, cell: Cell)
  {
    /** `value_word`: the known `u32`, if any. */
    function ValueWord(): (v: Option<U32>)
      ensures v.Some? <==> value.Some?
      ensures v.Some? ==> Word.New(v.value) == value.value
    {
      match value
      case Some(w) => Some(w.Deref())
      case None => None
    }
  }

  /** `AssignedChunk(AssignedCell<Chunk, F>)`. */
  datatype AssignedChunk = AssignedChunk(value: Option<Chunk>, cell: Cell)
  {
    /** The known `u8`, if any. The source declares this accessor as
     *  `value_word` and calls it as `value_chunk`. */
    function ValueChunk(): (v: Option<U8>)
      ensures v.Some? <==> value.Some?
      ensures v.Some? ==> Chunk.New(v.value) == value.value
    {
      match value
      case Some(c) => Some(c.Deref())
      case None => None
    }
  }

  /** The field element an optional word is written as. */
  function WordField(value: Option<Word>): (f: Option<nat>)
    ensures f.Some? <==> value.Some?
    ensures f.Some? ==> f.value == value.value.value
  {
    match value
    case Some(w) => Some(w.ToField())
    case None => None
  }

  /** The field element an optional chunk is written as. */
  function ChunkField(value: Option<Chunk>): (f: Option<nat>)
    ensures f.Some? <==> value.Some?
    ensures f.Some? ==> f.value == value.value.value
  {
    match value
    case Some(c) => Some(c.ToField())
    case None => None
  }

  /** `AssignedWord::assign_word`: one cell, at row 0 of `column` in a fresh
   *  region. Fails with `Synthesis` when the word is demanded but unknown. */
  method AssignWord(layouter: Layouter, column: Column, value: Option<Word>)
    returns (r: Result<AssignedWord, Error>, region: Region)
    modifies layouter
    ensures fresh(region) && region.name == "witness word" && region.proving == layouter.proving
    ensures layouter.log == old(layouter.log) + [RegionAssigned(region)]
    ensures region.enabled == {}
    ensures layouter.proving && value.None? ==> r == Err(Synthesis) && region.advice == map[]
    ensures !(layouter.proving && value.None?) ==>
              && r == Ok(AssignedWord(Demanded(layouter.proving, value), Cell(column, 0)))
              && region.advice == map[Cell(column, 0) := r.value.ValueWord()]
  {
    region := layouter.AssignRegion("witness word");
    var written := region.AssignAdvice(column, 0, WordField(value));
    if written.Err? {
      return Err(written.error), region;
    }
    r := Ok(AssignedWord(Demanded(layouter.proving, value), Cell(column, 0)));
  }

  /** `AssignedChunk::assign_chunk`: the same for a chunk. */
  method AssignChunk(layouter: Layouter, column: Column, value: Option<Chunk>)
    returns (r: Result<AssignedChunk, Error>, region: Region)
    modifies layouter
    ensures fresh(region) && region.name == "witness word" && region.proving == layouter.proving
    ensures layouter.log == old(layouter.log) + [RegionAssigned(region)]
    ensures region.enabled == {}
    ensures layouter.proving && value.None? ==> r == Err(Synthesis) && region.advice == map[]
    ensures !(layouter.proving && value.None?) ==>
              && r == Ok(AssignedChunk(Demanded(layouter.proving, value), Cell(column, 0)))
              && region.advice == map[Cell(column, 0) := r.value.ValueChunk()]
  {
    region := layouter.AssignRegion("witness word");
    var written := region.AssignAdvice(column, 0, ChunkField(value));
    if written.Err? {
      return Err(written.error), region;
    }
    r := Ok(AssignedChunk(Demanded(layouter.proving, value), Cell(column, 0)));
  }
}
