/**
 * The XOR lookup-table gadget of `src/gadget/xor.rs`: three table columns
 * holding every `(l, r, l ^ r)` for bytes `l`, `r`, and a lookup that
 * accepts a row of three advice cells only if it is one of those triples.
 */
module XorTable {
  import opened Wrappers
  import opened Bitwise
  import opened Halo2
  import opened Words

  const XOR_BITS: nat := 8
  /** `1 << XOR_BITS`: the values each of `l` and `r` ranges over. */
  const BYTE_VALUES: nat := 256
  /** The number of rows `load` fills. */
  const TABLE_ROWS: nat := 65536

  /** `1 << XOR_BITS` is 256, and the table has one row per pair of bytes. */
  lemma TableDimensions()
    ensures BYTE_VALUES == Pow2(XOR_BITS)
    ensures TABLE_ROWS == BYTE_VALUES * BYTE_VALUES
  {
    assert Pow2(XOR_BITS) == 2 * 2 * 2 * 2 * 2 * 2 * 2 * 2 * Pow2(0);
  }

  datatype Inputs = Inputs(x: Column, y: Column, z: Column)

  datatype TableColumns = TableColumns(x: TableColumn, y: TableColumn, z: TableColumn)
  {
    predicate Distinct()
    {
      x != y && y != z && x != z
    }
  }

  datatype TableConfig = TableConfig(input: Inputs, table: TableColumns)

  /** The lookup `configure` registers: each input column, queried at the
   *  current row, paired with its table column. */
  function Pairing(config: TableConfig): (l: Lookup)
    ensures |l.inputs| == 3 && |l.table| == 3
  {
    Lookup([Query(config.input.x, Cur), Query(config.input.y, Cur), Query(config.input.z, Cur)],
           [config.table.x, config.table.y, config.table.z])
  }

  /** `TableChip::configure`: three fresh table columns and the lookup tying
   *  the given advice columns to them. */
  function Configure(cs: ConstraintSystem, inputX: Column, inputY: Column, inputZ: Column)
    : (r: Allocated<TableConfig>)
    ensures r.item.input == Inputs(inputX, inputY, inputZ)
    ensures r.item.table.Distinct()
    ensures forall c :: c in [r.item.table.x, r.item.table.y, r.item.table.z] ==>
              cs.numTableColumns <= c < r.cs.numTableColumns
    ensures r.cs.lookups == cs.lookups + [Pairing(r.item)]
    ensures r.cs.gates == cs.gates && r.cs.numAdvice == cs.numAdvice
    ensures r.cs.numSelectors == cs.numSelectors
  {
    var tx := LookupTableColumn(cs);
    var ty := LookupTableColumn(tx.cs);
    var tz := LookupTableColumn(ty.cs);
    var config := TableConfig(Inputs(inputX, inputY, inputZ), TableColumns(tx.item, ty.item, tz.item));
    Allocated(tz.cs.(lookups := tz.cs.lookups + [Pairing(config)]), config)
  }

  /** The triple `load` writes at row offset `k`. */
  function Entry(k: nat): (nat, nat, nat)
  {
    (k / BYTE_VALUES, k % BYTE_VALUES, Xor(k / BYTE_VALUES, k % BYTE_VALUES))
  }

  /** The table cells after `load` has written rows `0 .. n-1`. */
  function LoadedCells(cols: TableColumns, n: nat): map<TableCell, nat>
  {
    if n == 0 then map[]
    else
      var e := Entry(n - 1);
      LoadedCells(cols, n - 1)[TableCell(cols.x, n - 1) := e.0]
                              [TableCell(cols.y, n - 1) := e.1]
                              [TableCell(cols.z, n - 1) := e.2]
  }

  /** The order in which `load` writes the cells of rows `0 .. n-1`. */
  function LoadOrder(cols: TableColumns, n: nat): seq<TableCell>
  {
    if n == 0 then []
    else LoadOrder(cols, n - 1)
         + [TableCell(cols.x, n - 1), TableCell(cols.y, n - 1), TableCell(cols.z, n - 1)]
  }

  /** `TableChip::load`: for `l` then `r` in `0..256`, writes `(l, r, l ^ r)`
   *  at the running `row_offset`. */
  method Load(config: TableConfig, layouter: Layouter) returns (r: Result<(), Error>, table: Table)
    modifies layouter
    ensures r == Ok(())
    ensures fresh(table) && table.name == "xor table"
    ensures layouter.log == old(layouter.log) + [TableAssigned(table)]
    ensures table.cells == LoadedCells(config.table, TABLE_ROWS)
    ensures table.writes == LoadOrder(config.table, TABLE_ROWS)
  {
    var cols := config.table;
    table := layouter.AssignTable("xor table");
    ghost var log := layouter.log;
    var rowOffset := 0;
    var l := 0;
    while l < BYTE_VALUES
      invariant 0 <= l <= BYTE_VALUES
      invariant rowOffset == l * BYTE_VALUES
      invariant table.cells == LoadedCells(cols, rowOffset)
      invariant table.writes == LoadOrder(cols, rowOffset)
      invariant layouter.log == log
    {
      var right := 0;
      while right < BYTE_VALUES
        invariant 0 <= right <= BYTE_VALUES
        invariant rowOffset == l * BYTE_VALUES + right
        invariant table.cells == LoadedCells(cols, rowOffset)
        invariant table.writes == LoadOrder(cols, rowOffset)
        invariant layouter.log == log
      {
        LoadStep(cols, l, right);
        table.AssignCell(cols.x, rowOffset, l);
        table.AssignCell(cols.y, rowOffset, right);
        table.AssignCell(cols.z, rowOffset, Xor(l, right));
        rowOffset := rowOffset + 1;
        right := right + 1;
      }
      l := l + 1;
    }
    r := Ok(());
  }

  /** Row `k < n` of the loaded table holds `Entry(k)` in the three columns,
   *  and the table has no other cells. */
  lemma {:induction false} LoadedCellsAt(cols: TableColumns, n: nat, c: TableCell)
    requires cols.Distinct()
    ensures c in LoadedCells(cols, n) <==> c.column in {cols.x, cols.y, cols.z} && c.row < n
    ensures c in LoadedCells(cols, n) ==>
              LoadedCells(cols, n)[c] ==
                (if c.column == cols.x then Entry(c.row).0
                 else if c.column == cols.y then Entry(c.row).1
                 else Entry(c.row).2)
  {
    if n > 0 {
      LoadedCellsAt(cols, n - 1, c);
    }
  }

  /** `load` writes every cell of rows `0 .. n-1` in each of the three
   *  columns exactly once. */
  lemma {:induction false} LoadOrderWritesOnce(cols: TableColumns, n: nat)
    requires cols.Distinct()
    ensures |LoadOrder(cols, n)| == 3 * n
    ensures forall i, j :: 0 <= i < j < |LoadOrder(cols, n)| ==> LoadOrder(cols, n)[i] != LoadOrder(cols, n)[j]
    ensures forall c :: c in LoadOrder(cols, n) <==> c.column in {cols.x, cols.y, cols.z} && c.row < n
  {
    if n > 0 {
      LoadOrderWritesOnce(cols, n - 1);
      var s := LoadOrder(cols, n);
      var prev := LoadOrder(cols, n - 1);
      assert s == prev + [TableCell(cols.x, n - 1), TableCell(cols.y, n - 1), TableCell(cols.z, n - 1)];
      forall i, j | 0 <= i < j < |s| ensures s[i] != s[j] {
        if j >= |prev| && i < |prev| {
          assert prev[i] in prev;
        }
      }
    }
  }

  /** The row at offset `l * 256 + r` holds `(l, r, l ^ r)`. */
  lemma EntryAt(l: nat, r: nat)
    requires l < BYTE_VALUES && r < BYTE_VALUES
    ensures l * BYTE_VALUES + r < TABLE_ROWS
    ensures Entry(l * BYTE_VALUES + r) == (l, r, Xor(l, r))
  {
    RowOffset(l, r);
  }

  /** Writing the triple for `(l, r)` at row `l * 256 + r` extends the
   *  loaded cells and the write order by exactly that row. */
  lemma LoadStep(cols: TableColumns, l: nat, r: nat)
    requires l < BYTE_VALUES && r < BYTE_VALUES
    ensures var k := l * BYTE_VALUES + r;
            && k + 1 <= TABLE_ROWS
            && LoadedCells(cols, k + 1)
               == LoadedCells(cols, k)[TableCell(cols.x, k) := l][TableCell(cols.y, k) := r]
                                      [TableCell(cols.z, k) := Xor(l, r)]
            && LoadOrder(cols, k + 1)
               == LoadOrder(cols, k) + [TableCell(cols.x, k), TableCell(cols.y, k), TableCell(cols.z, k)]
  {
    RowOffset(l, r);
  }

  /** The row offset `l * 256 + r` splits back into `l` and `r`. */
  lemma RowOffset(l: nat, r: nat)
    requires l < 256 && r < 256
    ensures l * 256 + r < 65536
    ensures (l * 256 + r) / 256 == l && (l * 256 + r) % 256 == r
  {
  }

  /** Every byte pair starts exactly one table row, and every `z` entry is a
   *  byte. */
  lemma EntryUnique(x: nat, y: nat, k: nat)
    requires x < BYTE_VALUES && y < BYTE_VALUES && k < TABLE_ROWS
    ensures Entry(k).0 == x && Entry(k).1 == y <==> k == x * BYTE_VALUES + y
    ensures Entry(k).0 < BYTE_VALUES && Entry(k).1 < BYTE_VALUES && Entry(k).2 < BYTE_VALUES
  {
    XorByteBound(k / BYTE_VALUES, k % BYTE_VALUES);
  }

  /** Row `k` of the loaded table holds `(a, b, c)`. */
  ghost predicate RowHolds(cols: TableColumns, k: nat, a: nat, b: nat, c: nat)
  {
    var cells := LoadedCells(cols, TABLE_ROWS);
    && TableCell(cols.x, k) in cells && cells[TableCell(cols.x, k)] == a
    && TableCell(cols.y, k) in cells && cells[TableCell(cols.y, k)] == b
    && TableCell(cols.z, k) in cells && cells[TableCell(cols.z, k)] == c
  }

  /** `(a, b, c)` is a row of the loaded table. */
  ghost predicate InTable(cols: TableColumns, a: nat, b: nat, c: nat)
  {
    exists k: nat :: RowHolds(cols, k, a, b, c)
  }

  /** The loaded table holds exactly the triples of two bytes and their XOR. */
  lemma InTableIff(cols: TableColumns, a: nat, b: nat, c: nat)
    requires cols.Distinct()
    ensures InTable(cols, a, b, c) <==> a < BYTE_VALUES && b < BYTE_VALUES && c == Xor(a, b)
  {
    if InTable(cols, a, b, c) {
      var k: nat :| RowHolds(cols, k, a, b, c);
      LoadedCellsAt(cols, TABLE_ROWS, TableCell(cols.x, k));
      LoadedCellsAt(cols, TABLE_ROWS, TableCell(cols.y, k));
      LoadedCellsAt(cols, TABLE_ROWS, TableCell(cols.z, k));
      XorByteBound(k / BYTE_VALUES, k % BYTE_VALUES);
    }
    if a < BYTE_VALUES && b < BYTE_VALUES && c == Xor(a, b) {
      var k := a * BYTE_VALUES + b;
      EntryAt(a, b);
      LoadedCellsAt(cols, TABLE_ROWS, TableCell(cols.x, k));
      LoadedCellsAt(cols, TABLE_ROWS, TableCell(cols.y, k));
      LoadedCellsAt(cols, TABLE_ROWS, TableCell(cols.z, k));
      assert RowHolds(cols, k, a, b, c);
    }
  }

  /** With the table loaded, the lookup `configure` registers accepts the
   *  advice row at `row` exactly when it is a table row, that is, exactly
   *  when it holds two bytes and their XOR. */
  lemma LookupAccepts(config: TableConfig, advice: map<Cell, Option<nat>>, row: nat)
    requires config.table.Distinct()
    ensures var a := Known(advice, Cell(config.input.x, row));
            var b := Known(advice, Cell(config.input.y, row));
            var c := Known(advice, Cell(config.input.z, row));
            && (LookupHolds(Pairing(config), advice, row, LoadedCells(config.table, TABLE_ROWS))
                <==> InTable(config.table, a, b, c))
            && (InTable(config.table, a, b, c)
                <==> a < BYTE_VALUES && b < BYTE_VALUES && c == Xor(a, b))
  {
    var a := Known(advice, Cell(config.input.x, row));
    var b := Known(advice, Cell(config.input.y, row));
    var c := Known(advice, Cell(config.input.z, row));
    var cols := config.table;
    var cells := LoadedCells(cols, TABLE_ROWS);
    var l := Pairing(config);
    assert At(l.inputs[0], row) == Cell(config.input.x, row);
    assert At(l.inputs[1], row) == Cell(config.input.y, row);
    assert At(l.inputs[2], row) == Cell(config.input.z, row);
    if LookupHolds(l, advice, row, cells) {
      var k: nat :| RowMatches(l, advice, row, cells, k);
      assert RowHolds(cols, k, a, b, c);
    }
    if InTable(cols, a, b, c) {
      var k: nat :| RowHolds(cols, k, a, b, c);
      assert RowMatches(l, advice, row, cells, k);
    }
    InTableIff(cols, a, b, c);
  }

  /** The lookup has no selector, so it is enforced at every row. A row
   *  whose three input cells are unassigned or unknown reads `(0, 0, 0)`,
   *  which is the table's row for `0 ^ 0`, so the lookup accepts it. */
  lemma UnusedRowAccepted(config: TableConfig, advice: map<Cell, Option<nat>>, row: nat)
    requires config.table.Distinct()
    requires Known(advice, Cell(config.input.x, row)) == 0
    requires Known(advice, Cell(config.input.y, row)) == 0
    requires Known(advice, Cell(config.input.z, row)) == 0
    ensures LookupHolds(Pairing(config), advice, row, LoadedCells(config.table, TABLE_ROWS))
  {
    LookupAccepts(config, advice, row);
    XorSelf(0);
  }

  /** `TableChip::add_row`: writes `x`, `y`, `z` (in that order) to the three
   *  input columns at `row`, stopping at the first one that is demanded but
   *  unknown. It does not check that `z` is `x ^ y`. */
  method AddRow(config: TableConfig, region: Region, row: nat,
                x: Option<Chunk>, y: Option<Chunk>, z: Option<Chunk>)
    returns (r: Result<(), Error>)
    modifies region
    ensures region.enabled == old(region.enabled)
    ensures var cx, cy, cz := Cell(config.input.x, row), Cell(config.input.y, row), Cell(config.input.z, row);
            var vx, vy, vz := Demanded(region.proving, ChunkField(x)),
                              Demanded(region.proving, ChunkField(y)),
                              Demanded(region.proving, ChunkField(z));
            && (r.Ok? <==> !region.proving || (x.Some? && y.Some? && z.Some?))
            && (r.Err? ==> r.error == Synthesis)
            && (region.proving && x.None? ==> region.advice == old(region.advice))
            && (region.proving && x.Some? && y.None? ==> region.advice == old(region.advice)[cx := vx])
            && (region.proving && x.Some? && y.Some? && z.None? ==>
                  region.advice == old(region.advice)[cx := vx][cy := vy])
            && (r.Ok? ==> region.advice == old(region.advice)[cx := vx][cy := vy][cz := vz])
  {
    var written := region.AssignAdvice(config.input.x, row, ChunkField(x));
    if written.Err? {
      return Err(written.error);
    }
    written := region.AssignAdvice(config.input.y, row, ChunkField(y));
    if written.Err? {
      return Err(written.error);
    }
    written := region.AssignAdvice(config.input.z, row, ChunkField(z));
    if written.Err? {
      return Err(written.error);
    }
    r := Ok(());
  }

  /** The XORs of the test rows, unfolded bit by bit. */
  lemma TestXors()
    ensures Xor(0, 1) == 1
    ensures Xor(0x33, 0x33) == 0
    ensures Xor(0x55, 0xAA) == 0xFF && Xor(0xAA, 0x55) == 0xFF
  {
    XorSelf(0x33);
    assert Xor(1, 0) == 1 && Xor(0, 1) == 1;
    assert Xor(2, 1) == 3 && Xor(1, 2) == 3;
    assert Xor(5, 2) == 7 && Xor(2, 5) == 7;
    assert Xor(10, 5) == 15 && Xor(5, 10) == 15;
    assert Xor(21, 10) == 31 && Xor(10, 21) == 31;
    assert Xor(42, 21) == 63 && Xor(21, 42) == 63;
    assert Xor(85, 42) == 127 && Xor(42, 85) == 127;
  }

  /** The rows the gadget's own test assigns are table rows, and so is the
   *  row `(170, 85, 255)` of the circuit test; `(170, 85, 254)` is not. */
  lemma TestRowsInTable(cols: TableColumns)
    requires cols.Distinct()
    ensures InTable(cols, 0, 1, 1)
    ensures InTable(cols, 0x33, 0x33, 0)
    ensures InTable(cols, 0x55, 0xAA, 0xFF)
    ensures InTable(cols, 0xAA, 0x55, 0xFF)
    ensures !InTable(cols, 0xAA, 0x55, 0xFE)
  {
    TestXors();
    InTableIff(cols, 0, 1, 1);
    InTableIff(cols, 0x33, 0x33, 0);
    InTableIff(cols, 0x55, 0xAA, 0xFF);
    InTableIff(cols, 0xAA, 0x55, 0xFF);
    InTableIff(cols, 0xAA, 0x55, 0xFE);
  }
}
