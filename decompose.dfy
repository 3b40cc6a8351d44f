/**
 * The decompose gadget of `src/gadget/decompose.rs`: a two-row region that
 * re-assigns a word and its four little-endian bytes, and a custom gate
 * that ties them together by a weighted sum.
 */
module DecomposeGadget {
  import opened Wrappers
  import opened Halo2
  import opened Words

  datatype DecomposeConfig = DecomposeConfig(qDecompose: Selector, advice: seq<Column>)
  {
    /** The `[Column<Advice>; 3]` of the source. */
    predicate HasThreeColumns()
    {
      |advice| == 3
    }

    /** Three distinct columns, as the circuit supplies. */
    predicate Valid()
    {
      |advice| == 3 && advice[0] != advice[1] && advice[1] != advice[2] && advice[0] != advice[2]
    }
  }

  /** The gate `configure` registers: the word at `advice[0]`, bytes 0 and 1
   *  at `advice[1]`, `advice[2]` on the current row, bytes 2 and 3 at
   *  `advice[0]`, `advice[1]` on the next row. */
  function DecomposeGate(config: DecomposeConfig): (g: Gate)
    requires config.HasThreeColumns()
    ensures |g.queries| == 5
  {
    Gate("constraint decompose", config.qDecompose,
         [Query(config.advice[0], Cur), Query(config.advice[1], Cur), Query(config.advice[2], Cur),
          Query(config.advice[0], Next), Query(config.advice[1], Next)])
  }

  /** The relation the gate polynomial `Gate::decompose_32_to_8` imposes,
   *  `word - (x0 + x1 * 2^8 + x2 * 2^16 + x3 * 2^24) == 0`. That polynomial
   *  is not part of this model; this is the relation it is documented to
   *  express. */
  predicate WeightedSum(word: nat, x0: nat, x1: nat, x2: nat, x3: nat)
  {
    word == x0 + x1 * 0x100 + x2 * 0x1_0000 + x3 * 0x100_0000
  }

  /** The gate holds at every row of the region where its selector is on. */
  ghost predicate GateSatisfied(g: Gate, advice: map<Cell, Option<nat>>, enabled: set<SelectorRow>)
  {
    && |g.queries| == 5
    && forall row :: SelectorRow(g.selector, row) in enabled ==>
         WeightedSum(Known(advice, At(g.queries[0], row)), Known(advice, At(g.queries[1], row)),
                     Known(advice, At(g.queries[2], row)), Known(advice, At(g.queries[3], row)),
                     Known(advice, At(g.queries[4], row)))
  }

  /** The cells a gate reads when evaluated at `row`. */
  function QueriedCells(g: Gate, row: nat): set<Cell>
  {
    set i | 0 <= i < |g.queries| :: At(g.queries[i], row)
  }

  /** `DecomposeChip::configure`: a fresh selector and the decompose gate. */
  function Configure(cs: ConstraintSystem, advice: seq<Column>): (r: Allocated<DecomposeConfig>)
    requires |advice| == 3
    ensures r.item.advice == advice && r.item.HasThreeColumns()
    ensures cs.numSelectors <= r.item.qDecompose < r.cs.numSelectors
    ensures r.cs.gates == cs.gates + [DecomposeGate(r.item)]
    ensures r.cs.lookups == cs.lookups && r.cs.numAdvice == cs.numAdvice
    ensures r.cs.numTableColumns == cs.numTableColumns
  {
    var q := NewSelector(cs);
    var config := DecomposeConfig(q.item, advice);
    Allocated(q.cs.(gates := q.cs.gates + [DecomposeGate(config)]), config)
  }

  /** Byte `i` of an optional decomposition. */
  function ByteOf(decomposed: Option<seq<U8>>, i: nat): (c: Option<Chunk>)
    requires decomposed.Some? ==> i < |decomposed.value|
  {
    match decomposed
    case Some(b) => Some(Chunk.New(b[i]))
    case None => None
  }

  /** The cells `decompose` writes for a word whose value is `word` (or is
   *  not computed, in which case every cell's value is unknown). */
  function Layout(config: DecomposeConfig, word: Option<Word>): map<Cell, Option<nat>>
    requires config.HasThreeColumns()
  {
    var d := if word.Some? then Some(word.value.Decompose4()) else None;
    map[Cell(config.advice[0], 0) := WordField(word)]
       [Cell(config.advice[1], 0) := ChunkField(ByteOf(d, 0))]
       [Cell(config.advice[2], 0) := ChunkField(ByteOf(d, 1))]
       [Cell(config.advice[0], 1) := ChunkField(ByteOf(d, 2))]
       [Cell(config.advice[1], 1) := ChunkField(ByteOf(d, 3))]
  }

  type Chunks = (AssignedChunk, AssignedChunk, AssignedChunk, AssignedChunk)

  /** The four assigned bytes `decompose` returns. */
  function Returned(config: DecomposeConfig, word: Option<Word>): Chunks
    requires config.HasThreeColumns()
  {
    var d := if word.Some? then Some(word.value.Decompose4()) else None;
    (AssignedChunk(ByteOf(d, 0), Cell(config.advice[1], 0)),
     AssignedChunk(ByteOf(d, 1), Cell(config.advice[2], 0)),
     AssignedChunk(ByteOf(d, 2), Cell(config.advice[0], 1)),
     AssignedChunk(ByteOf(d, 3), Cell(config.advice[1], 1)))
  }

  /** `DecomposeChip::decompose`: in a fresh region, switches the selector on
   *  at row 0, re-assigns the word (a new cell: no equality with the
   *  caller's cell is enforced) and then its four bytes, failing at the
   *  first write when the word is demanded but unknown. */
  method Decompose(config: DecomposeConfig, layouter: Layouter, value: AssignedWord)
    returns (r: Result<Chunks, Error>, region: Region)
    requires config.HasThreeColumns()
    modifies layouter
    ensures fresh(region) && region.name == "decompose" && region.proving == layouter.proving
    ensures layouter.log == old(layouter.log) + [RegionAssigned(region)]
    ensures region.enabled == {SelectorRow(config.qDecompose, 0)}
    ensures layouter.proving && value.value.None? ==> r == Err(Synthesis) && region.advice == map[]
    ensures !(layouter.proving && value.value.None?) ==>
              && r == Ok(Returned(config, Demanded(layouter.proving, value.value)))
              && region.advice == Layout(config, Demanded(layouter.proving, value.value))
  {
    region := layouter.AssignRegion("decompose");
    var rowOffset := 0;
    region.EnableSelector(config.qDecompose, 0);

    var known := value.ValueWord();
    var word := if known.Some? then Some(Word.New(known.value)) else None;
    var written := region.AssignAdvice(config.advice[0], rowOffset, WordField(word));
    if written.Err? {
      return Err(written.error), region;
    }
    var assignedWord := AssignedWord(Demanded(region.proving, word), Cell(config.advice[0], rowOffset));

    var wordValue := assignedWord.ValueWord();
    var decomposed := if wordValue.Some? then Some(Word.New(wordValue.value).Decompose4()) else None;

    written := region.AssignAdvice(config.advice[1], rowOffset, ChunkField(ByteOf(decomposed, 0)));
    if written.Err? {
      return Err(Synthesis), region;
    }
    var x0 := AssignedChunk(Demanded(region.proving, ByteOf(decomposed, 0)), Cell(config.advice[1], rowOffset));

    written := region.AssignAdvice(config.advice[2], rowOffset, ChunkField(ByteOf(decomposed, 1)));
    if written.Err? {
      return Err(Synthesis), region;
    }
    var x1 := AssignedChunk(Demanded(region.proving, ByteOf(decomposed, 1)), Cell(config.advice[2], rowOffset));

    rowOffset := rowOffset + 1;
    written := region.AssignAdvice(config.advice[0], rowOffset, ChunkField(ByteOf(decomposed, 2)));
    if written.Err? {
      return Err(Synthesis), region;
    }
    var x2 := AssignedChunk(Demanded(region.proving, ByteOf(decomposed, 2)), Cell(config.advice[0], rowOffset));

    written := region.AssignAdvice(config.advice[1], rowOffset, ChunkField(ByteOf(decomposed, 3)));
    if written.Err? {
      return Err(Synthesis), region;
    }
    var x3 := AssignedChunk(Demanded(region.proving, ByteOf(decomposed, 3)), Cell(config.advice[1], rowOffset));

    r := Ok((x0, x1, x2, x3));
  }

  /** The cells `decompose` writes are exactly the cells the gate queries at
   *  the selector's row; `(advice[2], row 1)` is never written. */
  lemma LayoutIsQueried(config: DecomposeConfig, word: Option<Word>)
    requires config.Valid()
    ensures Layout(config, word).Keys == QueriedCells(DecomposeGate(config), 0)
    ensures |Layout(config, word).Keys| == 5
    ensures Cell(config.advice[2], 1) !in Layout(config, word)
  {
    var g := DecomposeGate(config);
    var a := config.advice;
    var expected := {Cell(a[0], 0), Cell(a[1], 0), Cell(a[2], 0), Cell(a[0], 1), Cell(a[1], 1)};
    assert Layout(config, word).Keys == expected;
    assert At(g.queries[0], 0) == Cell(a[0], 0);
    assert At(g.queries[1], 0) == Cell(a[1], 0);
    assert At(g.queries[2], 0) == Cell(a[2], 0);
    assert At(g.queries[3], 0) == Cell(a[0], 1);
    assert At(g.queries[4], 0) == Cell(a[1], 1);
    assert QueriedCells(g, 0) == expected;
  }

  /** A known word laid out by `decompose` satisfies the gate: the word is
   *  the weighted sum of its four bytes. Each of the four byte cells holds a
   *  value below 256, which is what a lookup on those cells relies on. */
  lemma LayoutSatisfiesGate(config: DecomposeConfig, w: Word)
    requires config.Valid()
    ensures GateSatisfied(DecomposeGate(config), Layout(config, Some(w)), {SelectorRow(config.qDecompose, 0)})
    ensures var m, a := Layout(config, Some(w)), config.advice;
            && Known(m, Cell(a[1], 0)) < 256 && Known(m, Cell(a[2], 0)) < 256
            && Known(m, Cell(a[0], 1)) < 256 && Known(m, Cell(a[1], 1)) < 256
  {
    var g := DecomposeGate(config);
    var advice := Layout(config, Some(w));
    var a := config.advice;
    var b := w.Decompose4();
    DecomposeWeightedSum(w);
    assert Known(advice, At(g.queries[0], 0)) == w.value;
    assert Known(advice, At(g.queries[1], 0)) == b[0];
    assert Known(advice, At(g.queries[2], 0)) == b[1];
    assert Known(advice, At(g.queries[3], 0)) == b[2];
    assert Known(advice, At(g.queries[4], 0)) == b[3];
  }

  /** The gate alone does not range-check the bytes: word 256 split as
   *  `(256, 0, 0, 0)` satisfies it. Only a lookup on the bytes rules it out. */
  lemma GateDoesNotRangeCheck(config: DecomposeConfig)
    requires config.Valid()
    ensures var a := config.advice;
            var advice := map[Cell(a[0], 0) := Some(256), Cell(a[1], 0) := Some(256), Cell(a[2], 0) := Some(0),
                              Cell(a[0], 1) := Some(0), Cell(a[1], 1) := Some(0)];
            && GateSatisfied(DecomposeGate(config), advice, {SelectorRow(config.qDecompose, 0)})
            && Known(advice, Cell(a[1], 0)) >= 256
  {
    var a := config.advice;
    var g := DecomposeGate(config);
    var advice := map[Cell(a[0], 0) := Some(256), Cell(a[1], 0) := Some(256), Cell(a[2], 0) := Some(0),
                      Cell(a[0], 1) := Some(0), Cell(a[1], 1) := Some(0)];
    assert Known(advice, At(g.queries[0], 0)) == 256;
    assert Known(advice, At(g.queries[1], 0)) == 256;
    assert Known(advice, At(g.queries[2], 0)) == 0;
    assert Known(advice, At(g.queries[3], 0)) == 0;
    assert Known(advice, At(g.queries[4], 0)) == 0;
  }

  /** The words of the tests: 5 splits as `(5, 0, 0, 0)` and 170 as
   *  `(170, 0, 0, 0)`. */
  lemma TestDecompositions()
    ensures Word(5).Decompose4() == [5, 0, 0, 0]
    ensures Word(170).Decompose4() == [170, 0, 0, 0]
    ensures Word(85).Decompose4() == [85, 0, 0, 0]
  {
    DecomposeLittleEndian(Word(5));
    DecomposeLittleEndian(Word(170));
    DecomposeLittleEndian(Word(85));
  }
}
