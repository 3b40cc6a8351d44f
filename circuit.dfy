/**
 * The top-level circuit of `src/circuit.rs`: six advice columns split
 * between the decompose gadget and the XOR table gadget, and a synthesis
 * pass that loads the table, witnesses two words, decomposes both,
 * computes the byte-wise XOR and binds byte 0 into the lookup.
 */
module XorCircuit {
  import opened Wrappers
  import opened Bitwise
  import opened Halo2
  import opened Words
  import opened XorTable
  import DecomposeGadget

  datatype Config = Config(advice: seq<Column>,
                           tableConfig: TableConfig,
                           decomposeConfig: DecomposeGadget.DecomposeConfig)
  {
    /** What `configure` builds: six distinct columns, the first three for
     *  the decompose gadget, the last three as the lookup's inputs. */
    predicate Valid()
    {
      && |advice| == 6
      && (forall i, j :: 0 <= i < j < 6 ==> advice[i] != advice[j])
      && decomposeConfig.advice == advice[..3]
      && tableConfig.input == Inputs(advice[3], advice[4], advice[5])
      && tableConfig.table.Distinct()
    }
  }

  /** Columns allocated one after another are pairwise distinct. */
  lemma {:induction false} ConsecutiveDistinct(s: seq<Column>)
    requires forall i :: 0 < i < |s| ==> s[i] == s[i - 1] + 1
    ensures forall i :: 0 <= i < |s| ==> s[i] == s[0] + i
    ensures forall i, j :: 0 <= i < j < |s| ==> s[i] < s[j]
  {
    if |s| > 1 {
      var p := s[..|s| - 1];
      ConsecutiveDistinct(p);
      assert forall i :: 0 <= i < |p| ==> s[i] == p[i];
      var n := |s| - 1;
      assert s[n - 1] == p[n - 1] == p[0] + (n - 1);
      assert s[n] == s[n - 1] + 1;
    }
  }

  /** The decompose gadget's columns and the lookup's input columns are
   *  disjoint: the two gadgets never write the same cell. */
  lemma ColumnsPartitioned(config: Config)
    requires config.Valid()
    ensures var inputs := config.tableConfig.input;
            (set c | c in config.decomposeConfig.advice) !! {inputs.x, inputs.y, inputs.z}
    ensures config.decomposeConfig.Valid()
  {
    var a := config.advice;
    assert config.decomposeConfig.advice == [a[0], a[1], a[2]];
  }

  /** `Circuit::configure`. */
  function Configure(cs: ConstraintSystem): (r: Allocated<Config>)
    ensures r.item.Valid()
    ensures r.item.decomposeConfig.Valid()
    ensures r.cs.lookups == cs.lookups + [Pairing(r.item.tableConfig)]
    ensures r.cs.gates == cs.gates + [DecomposeGadget.DecomposeGate(r.item.decomposeConfig)]
  {
    var c0 := AdviceColumn(cs);
    var c1 := AdviceColumn(c0.cs);
    var c2 := AdviceColumn(c1.cs);
    var c3 := AdviceColumn(c2.cs);
    var c4 := AdviceColumn(c3.cs);
    var c5 := AdviceColumn(c4.cs);
    var advice := [c0.item, c1.item, c2.item, c3.item, c4.item, c5.item];
    ConsecutiveDistinct(advice);
    assert c5.cs.gates == cs.gates && c5.cs.lookups == cs.lookups;
    var table := XorTable.Configure(c5.cs, advice[3], advice[4], advice[5]);
    var decompose := DecomposeGadget.Configure(table.cs, advice[0..3]);
    Allocated(decompose.cs, Config(advice, table.item, decompose.item))
  }

  /** The circuit's witness. */
  datatype Circuit = Circuit(x: Option<Word>, y: Option<Word>)

  /** `without_witnesses`: the default circuit, used for key generation. */
  function WithoutWitnesses(): (c: Circuit)
    ensures c.x.None? && c.y.None?
  {
    Circuit(None, None)
  }

  /** `x_i.value_chunk().zip(y_i.value_chunk()).map(|(a, b)| Chunk::new(a ^ b))`. */
  function XorChunks(a: Option<U8>, b: Option<U8>): (z: Option<Chunk>)
    ensures z.Some? <==> a.Some? && b.Some?
    ensures z.Some? ==> z.value.value == Xor(a.value, b.value) && z.value.value < 256
  {
    if a.Some? && b.Some? then Some(Chunk.New(XorU8(a.value, b.value))) else None
  }

  /** How a synthesis pass ends: normally, carrying the four XOR bytes it
   *  computes (and prints); with an error propagated by `?`; or by the
   *  panic of an `unwrap`. */
  datatype Outcome =
    | Synthesized(z0: Option<Chunk>, z1: Option<Chunk>, z2: Option<Chunk>, z3: Option<Chunk>)
    | Failed(error: Error)
    | Panicked

  const REGION_NAMES: seq<string> :=
    ["xor table", "witness word", "witness word", "decompose", "decompose", "compress"]

  /** The bytes of `x ^ y` are the byte-wise XORs of the bytes of `x` and
   *  of `y`. */
  lemma XorWordBytes(x: Word, y: Word)
    ensures XorWord(x, y).Decompose4() == XorEach(x.Decompose4(), y.Decompose4())
  {
    ComposeXorEach(x, y);
    DecomposeCompose(XorEach(x.Decompose4(), y.Decompose4()));
  }

  /** The four chunks `synthesize` computes, byte by byte, from two
   *  optional words. */
  function XorOfBytes(x: Option<Word>, y: Option<Word>): (z: seq<Option<Chunk>>)
    ensures |z| == 4
    ensures x.Some? && y.Some? ==>
              forall i :: 0 <= i < 4 ==> z[i] == Some(Chunk(XorWord(x.value, y.value).Decompose4()[i]))
    ensures x.None? || y.None? ==> z == [None, None, None, None]
  {
    if x.Some? && y.Some? then
      var b := XorEach(x.value.Decompose4(), y.value.Decompose4());
      XorWordBytes(x.value, y.value);
      [Some(Chunk(b[0])), Some(Chunk(b[1])), Some(Chunk(b[2])), Some(Chunk(b[3]))]
    else [None, None, None, None]
  }

  /** The row the compress region binds into the lookup, at row 0 of the
   *  lookup's input columns, from two optional words. */
  function BoundRow(inputs: Inputs, x: Option<Word>, y: Option<Word>): (m: map<Cell, Option<nat>>)
    requires inputs.x != inputs.y && inputs.x != inputs.z && inputs.y != inputs.z
    ensures m.Keys == {Cell(inputs.x, 0), Cell(inputs.y, 0), Cell(inputs.z, 0)}
    ensures x.Some? && y.Some? ==>
              && Known(m, Cell(inputs.x, 0)) == x.value.value % 256
              && Known(m, Cell(inputs.y, 0)) == y.value.value % 256
              && Known(m, Cell(inputs.z, 0)) == XorWord(x.value, y.value).value % 256
    ensures x.None? || y.None? ==> m[Cell(inputs.z, 0)].None?
  {
    var bx: Option<nat> := if x.Some? then Some(x.value.Decompose4()[0]) else None;
    var bt: Option<nat> := if y.Some? then Some(y.value.Decompose4()[0]) else None;
    var bz := if x.Some? && y.Some? then Some(Xor(bx.value, bt.value)) else None;
    if x.Some? && y.Some? then
      DecomposeLittleEndian(x.value);
      DecomposeLittleEndian(y.value);
      DecomposeLittleEndian(XorWord(x.value, y.value));
      XorWordBytes(x.value, y.value);
      map[Cell(inputs.x, 0) := bx, Cell(inputs.y, 0) := bt, Cell(inputs.z, 0) := bz]
    else
      map[Cell(inputs.x, 0) := bx, Cell(inputs.y, 0) := bt, Cell(inputs.z, 0) := bz]
  }

  /** The row the circuit binds is accepted by the XOR lookup against the
   *  loaded table, for every pair of words. */
  lemma BoundRowAccepted(config: Config, x: Word, y: Word)
    requires config.Valid()
    ensures LookupHolds(Pairing(config.tableConfig),
                        BoundRow(config.tableConfig.input, Some(x), Some(y)), 0,
                        LoadedCells(config.tableConfig.table, TABLE_ROWS))
  {
    var m := BoundRow(config.tableConfig.input, Some(x), Some(y));
    LookupAccepts(config.tableConfig, m, 0);
    XorByteBound(x.Decompose4()[0], y.Decompose4()[0]);
  }

  /** The cells a "witness word" region holds after `assign_word` at row 0
   *  of `advice[0]`: the word's value as demanded, or no cell at all when
   *  the value was demanded but unknown. */
  function WitnessCells(config: Config, proving: bool, value: Option<Word>): (m: map<Cell, Option<nat>>)
    requires config.Valid()
    ensures proving && value.None? <==> m == map[]
    ensures m != map[] ==> m.Keys == {Cell(config.advice[0], 0)}
    ensures proving && value.Some? ==> Known(m, Cell(config.advice[0], 0)) == value.value.value
    ensures !proving ==> m[Cell(config.advice[0], 0)].None?
  {
    if proving && value.None? then map[]
    else
      var m := map[Cell(config.advice[0], 0) := WordField(Demanded(proving, value))];
      assert Cell(config.advice[0], 0) in m;
      m
  }

  /** The witness phase of `synthesize`: both words are assigned, each in
   *  its own region, and each `unwrap` panics (here: `None`) when the
   *  backend demands a value the circuit does not have. */
  method WitnessWords(circuit: Circuit, config: Config, layouter: Layouter)
    returns (words: Option<(AssignedWord, AssignedWord)>, ghost steps: seq<Assignment>)
    requires config.Valid()
    modifies layouter
    ensures layouter.log == old(layouter.log) + steps
    ensures 1 <= |steps| <= 2 && (words.Some? ==> |steps| == 2)
    // A missing `x` panics before `y`'s region is opened.
    ensures |steps| == 2 <==> !(layouter.proving && circuit.x.None?)
    ensures forall i :: 0 <= i < |steps| ==>
              steps[i].RegionAssigned? && fresh(steps[i].region) && steps[i].region.name == "witness word"
    ensures words.None? <==> layouter.proving && (circuit.x.None? || circuit.y.None?)
    ensures words.Some? ==>
              && words.value.0 == AssignedWord(Demanded(layouter.proving, circuit.x), Cell(config.advice[0], 0))
              && words.value.1 == AssignedWord(Demanded(layouter.proving, circuit.y), Cell(config.advice[0], 0))
    // Each region holds its word at row 0 of `advice[0]`, or nothing when
    // that write failed, and enables no selector.
    ensures forall i :: 0 <= i < |steps| ==> steps[i].region.enabled == {}
    ensures steps[0].region.advice == WitnessCells(config, layouter.proving, circuit.x)
    ensures |steps| == 2 ==> steps[1].region.advice == WitnessCells(config, layouter.proving, circuit.y)
  {
    var xw, xRegion := AssignWord(layouter, config.advice[0], circuit.x);
    steps := [RegionAssigned(xRegion)];
    if xw.Err? {
      return None, steps;
    }
    var yw, yRegion := AssignWord(layouter, config.advice[0], circuit.y);
    steps := steps + [RegionAssigned(yRegion)];
    if yw.Err? {
      return None, steps;
    }
    words := Some((xw.value, yw.value));
  }

  /** The second half of `synthesize`, once both words are witnessed:
   *  decompose each, XOR the bytes, and bind byte 0 in the compress
   *  region. Every step succeeds, because each cell it writes is known
   *  whenever the backend demands it. */
  method DecomposeAndCompress(config: Config, layouter: Layouter, x: AssignedWord, y: AssignedWord)
    returns (z: seq<Option<Chunk>>, ghost regions: seq<Region>)
    requires config.Valid()
    requires layouter.proving ==> x.value.Some? && y.value.Some?
    modifies layouter
    ensures |regions| == 3 && forall i :: 0 <= i < 3 ==> fresh(regions[i])
    ensures layouter.log == old(layouter.log) + [RegionAssigned(regions[0]),
                                                 RegionAssigned(regions[1]),
                                                 RegionAssigned(regions[2])]
    ensures regions[0].name == "decompose" && regions[1].name == "decompose"
    ensures regions[2].name == "compress"
    ensures z == XorOfBytes(Demanded(layouter.proving, x.value), Demanded(layouter.proving, y.value))
    ensures var dc := config.decomposeConfig;
            && regions[0].advice == DecomposeGadget.Layout(dc, Demanded(layouter.proving, x.value))
            && regions[1].advice == DecomposeGadget.Layout(dc, Demanded(layouter.proving, y.value))
            && regions[0].enabled == regions[1].enabled == {SelectorRow(dc.qDecompose, 0)}
    ensures regions[2].advice == BoundRow(config.tableConfig.input,
                                          Demanded(layouter.proving, x.value),
                                          Demanded(layouter.proving, y.value))
    ensures regions[2].enabled == {}
  {
    var dx, dxRegion := DecomposeGadget.Decompose(config.decomposeConfig, layouter, x);
    regions := [dxRegion];
    if dx.Err? {
      assert false;
      return [], regions;
    }
    var dy, dyRegion := DecomposeGadget.Decompose(config.decomposeConfig, layouter, y);
    regions := regions + [dyRegion];
    if dy.Err? {
      assert false;
      return [], regions;
    }
    var (x0, x1, x2, x3) := dx.value;
    var (y0, y1, y2, y3) := dy.value;

    var z0 := XorChunks(x0.ValueChunk(), y0.ValueChunk());
    var z1 := XorChunks(x1.ValueChunk(), y1.ValueChunk());
    var z2 := XorChunks(x2.ValueChunk(), y2.ValueChunk());
    var z3 := XorChunks(x3.ValueChunk(), y3.ValueChunk());

    var compress := layouter.AssignRegion("compress");
    regions := regions + [compress];
    var added := AddRow(config.tableConfig, compress, 0, x0.value, y0.value, z0);
    if added.Err? {
      assert false;
      return [], regions;
    }
    z := [z0, z1, z2, z3];
  }

  /** The XOR lookup is enforced at every row of every region (it has no
   *  selector). In a successful pass each region's row either is the bound
   *  compress row or leaves the lookup's input columns unassigned, which
   *  reads as the table row `(0, 0, 0)`; so the lookup holds everywhere. */
  lemma RegionRowsAccepted(config: Config, x: Word, y: Word, row: nat)
    requires config.Valid()
    ensures var l, t := Pairing(config.tableConfig), LoadedCells(config.tableConfig.table, TABLE_ROWS);
            var dc := config.decomposeConfig;
            && LookupHolds(l, WitnessCells(config, true, Some(x)), row, t)
            && LookupHolds(l, WitnessCells(config, true, Some(y)), row, t)
            && LookupHolds(l, DecomposeGadget.Layout(dc, Some(x)), row, t)
            && LookupHolds(l, DecomposeGadget.Layout(dc, Some(y)), row, t)
            && LookupHolds(l, BoundRow(config.tableConfig.input, Some(x), Some(y)), row, t)
  {
    var tc, dc := config.tableConfig, config.decomposeConfig;
    ColumnsPartitioned(config);
    UnusedRowAccepted(tc, WitnessCells(config, true, Some(x)), row);
    UnusedRowAccepted(tc, WitnessCells(config, true, Some(y)), row);
    UnusedRowAccepted(tc, DecomposeGadget.Layout(dc, Some(x)), row);
    UnusedRowAccepted(tc, DecomposeGadget.Layout(dc, Some(y)), row);
    if row == 0 {
      BoundRowAccepted(config, x, y);
    } else {
      UnusedRowAccepted(tc, BoundRow(tc.input, Some(x), Some(y)), row);
    }
  }

  /** What a successful proving pass establishes about the values it lays
   *  out: the four z chunks compose to `x ^ y`, both decompose regions
   *  satisfy the decompose gate, and the compress row is accepted by the XOR
   *  lookup against the loaded table. */
  lemma SynthesisSound(config: Config, x: Word, y: Word)
    requires config.Valid()
    ensures var z := XorOfBytes(Some(x), Some(y));
            && z[0].Some? && z[1].Some? && z[2].Some? && z[3].Some?
            && Word.Compose([z[0].value.value, z[1].value.value, z[2].value.value, z[3].value.value])
               == XorWord(x, y)
    ensures var dc := config.decomposeConfig;
            var gate := DecomposeGadget.DecomposeGate(dc);
            && DecomposeGadget.GateSatisfied(gate, DecomposeGadget.Layout(dc, Some(x)), {SelectorRow(dc.qDecompose, 0)})
            && DecomposeGadget.GateSatisfied(gate, DecomposeGadget.Layout(dc, Some(y)), {SelectorRow(dc.qDecompose, 0)})
    ensures LookupHolds(Pairing(config.tableConfig),
                        BoundRow(config.tableConfig.input, Some(x), Some(y)), 0,
                        LoadedCells(config.tableConfig.table, TABLE_ROWS))
    // The selector-less lookup holds at every row of the witness, decompose
    // and compress regions.
    ensures var l, t := Pairing(config.tableConfig), LoadedCells(config.tableConfig.table, TABLE_ROWS);
            forall row: nat ::
              && LookupHolds(l, WitnessCells(config, true, Some(x)), row, t)
              && LookupHolds(l, WitnessCells(config, true, Some(y)), row, t)
              && LookupHolds(l, DecomposeGadget.Layout(config.decomposeConfig, Some(x)), row, t)
              && LookupHolds(l, DecomposeGadget.Layout(config.decomposeConfig, Some(y)), row, t)
              && LookupHolds(l, BoundRow(config.tableConfig.input, Some(x), Some(y)), row, t)
  {
    forall row: nat {
      RegionRowsAccepted(config, x, y, row);
    }
    var z := XorEach(x.Decompose4(), y.Decompose4());
    ComposeXorEach(x, y);
    assert [z[0], z[1], z[2], z[3]] == z;
    DecomposeGadget.LayoutSatisfiesGate(config.decomposeConfig, x);
    DecomposeGadget.LayoutSatisfiesGate(config.decomposeConfig, y);
    BoundRowAccepted(config, x, y);
  }

  /** `Circuit::synthesize`. */
  method Synthesize(circuit: Circuit, config: Config, layouter: Layouter)
    returns (r: Outcome, ghost steps: seq<Assignment>)
    requires config.Valid()
    modifies layouter
    ensures layouter.log == old(layouter.log) + steps
    // Phase order: the table comes first, then the regions in program order.
    ensures 2 <= |steps| <= 6 && steps[0].TableAssigned?
    ensures forall i :: 1 <= i < |steps| ==> steps[i].RegionAssigned?
    ensures forall i :: 0 <= i < |steps| ==> steps[i].Name() == REGION_NAMES[i]
    ensures steps[0].table.cells == LoadedCells(config.tableConfig.table, TABLE_ROWS)
    // A missing witness panics (at `unwrap`) instead of returning an error,
    // and the `?`-propagated errors never happen.
    ensures r.Panicked? <==> layouter.proving && (circuit.x.None? || circuit.y.None?)
    ensures !r.Failed?
    ensures r.Synthesized? ==> |steps| == 6
    // The panic happens after x's region when x is missing, else after y's.
    ensures r.Panicked? ==> |steps| == (if circuit.x.None? then 2 else 3)
    // The computed bytes, the two decompositions and the bound row.
    ensures r.Synthesized? ==>
              var x, y := Demanded(layouter.proving, circuit.x), Demanded(layouter.proving, circuit.y);
              var dc := config.decomposeConfig;
              && [r.z0, r.z1, r.z2, r.z3] == XorOfBytes(x, y)
              && steps[3].region.advice == DecomposeGadget.Layout(dc, x)
              && steps[4].region.advice == DecomposeGadget.Layout(dc, y)
              && steps[3].region.enabled == steps[4].region.enabled == {SelectorRow(dc.qDecompose, 0)}
              && steps[5].region.advice == BoundRow(config.tableConfig.input, x, y)
              && steps[5].region.enabled == {}
    // The witness-word regions hold the words, and enable no selector.
    ensures steps[1].region.advice == WitnessCells(config, layouter.proving, circuit.x)
    ensures steps[1].region.enabled == {}
    ensures |steps| > 2 ==>
              && steps[2].region.advice == WitnessCells(config, layouter.proving, circuit.y)
              && steps[2].region.enabled == {}
    ensures !layouter.proving ==> r == Synthesized(None, None, None, None)
  {
    var loaded, table := XorTable.Load(config.tableConfig, layouter);
    steps := [TableAssigned(table)];

    var words, witnessed := WitnessWords(circuit, config, layouter);
    steps := steps + witnessed;
    if words.None? {
      return Panicked, steps;
    }

    assert witnessed == [witnessed[0], witnessed[1]];
    var z, regions := DecomposeAndCompress(config, layouter, words.value.0, words.value.1);
    steps := [TableAssigned(table), witnessed[0], witnessed[1],
              RegionAssigned(regions[0]), RegionAssigned(regions[1]), RegionAssigned(regions[2])];
    r := Synthesized(z[0], z[1], z[2], z[3]);
  }

  /** The circuit test: `x = 170`, `y = 85` gives `z = (255, 0, 0, 0)`, i.e.
   *  the word 255, and the bound row `(170, 85, 255)` is a table row. */
  lemma MainCircuitExample(cols: TableColumns)
    requires cols.Distinct()
    ensures XorEach(Word(170).Decompose4(), Word(85).Decompose4()) == [255, 0, 0, 0]
    ensures XorWord(Word(170), Word(85)) == Word(255)
    ensures InTable(cols, 170, 85, 255) && !InTable(cols, 170, 85, 254)
  {
    DecomposeGadget.TestDecompositions();
    TestXors();
    assert Xor(0, 0) == 0;
    InTableIff(cols, 170, 85, 255);
    InTableIff(cols, 170, 85, 254);
  }
}
