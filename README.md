# A verified model of a halo2 32-bit XOR lookup circuit

This project models the core of a small halo2 circuit over the Pallas base
field. It witnesses two 32-bit words `x` and `y` and decomposes each into
four bytes. Byte 0 of `x`, `y` and `x ^ y` is bound into an XOR lookup.
Bytes 1-3 of the XOR are computed but not constrained. The core has four
parts:

- **Words** (`src/word.rs`): the `Word(u32)` and `Chunk(u8)` wrappers, the
  little-endian split `decompose_4` and its inverse `compose`, the embedding
  into the field, and `assign_word` / `assign_chunk`. Each of those two puts
  one value in row 0 of a fresh region.
- **XorTable** (`src/gadget/xor.rs`): `configure` allocates three table
  columns and a lookup from three advice columns into them. `load` fills the
  table with every row `(l, r, l ^ r)` for bytes `l`, `r`, using a nested
  loop and a running row offset. `add_row` writes `x`, `y`, `z` into one
  advice row and stops at the first value that is demanded but unknown.
- **DecomposeGadget** (`src/gadget/decompose.rs`): a selector and a custom
  gate that ties a word to its four bytes by the weighted sum
  `word = x0 + x1·2^8 + x2·2^16 + x3·2^24`. `decompose` lays the word and
  its bytes out over two rows of a fresh region.
- **XorCircuit** (`src/circuit.rs`): `configure` builds six advice columns.
  The first three go to the decompose gadget and the last three to the
  table lookup. `synthesize` loads the table, witnesses both words,
  decomposes them, computes the four XOR bytes, and binds byte 0 into the
  lookup in a "compress" region.

Two supporting modules hold what the core uses but does not define:

- **Bitwise** defines Rust's `^` on natural numbers, bit by bit, and proves
  that it splits byte by byte.
- **Halo2** models the slice of the halo2 API the core observes.
  - Column, selector and table-column allocation are pure functions on a
    `ConstraintSystem` value.
  - Gates and lookups are registered as data. `LookupHolds` gives a lookup
    its meaning.
  - `Region`, `Table` and `Layouter` are classes whose methods update their
    cells in place. The layouter keeps a ghost log of the regions and
    tables assigned, in order.

A synthesis pass runs in one of two modes, given by `Layouter.proving`:

- **Proving** (a prover or mock prover): every advice value closure is
  evaluated, and an unknown value fails with `Error::Synthesis`.
- **Key generation**: no advice value closure is evaluated. Advice cells
  are placed with an unknown value, and `AssignedCell::value()` is `None`.

The table is made of fixed columns, so `load` writes its values in both
modes.

`Demanded(proving, v)` is the value a cell actually receives.

Error handling in `synthesize` is not uniform, and the model keeps it as
written. `synthesize` calls `unwrap()` on `assign_word`
(src/circuit.rs:82-83), so a missing `x` or `y` panics when proving. The
errors of `load`, `decompose` and the compress region are propagated with
`?` (src/circuit.rs:78, 85-86, 114). `XorCircuit.Synthesize` returns
`Panicked` in the first case. It never returns `Failed`, because none of
the propagated errors can occur once both words are known.

Several calls in the source do not type-check as written. The model gives
each the evident meaning, using `Word.New` and `Chunk.New` where a wrapper
is missing:

- **Accessor name.** The code calls `value_chunk()` on an `AssignedChunk`
  (src/circuit.rs:88-98 and 108-109), but declares that accessor as
  `value_word` (src/word.rs:101-103). It is modelled once, as
  `AssignedChunk.ValueChunk`.
- **Word cell in `decompose`.** The closure that re-assigns the word yields
  the `u32` from `value_word()`, but the cell is built as an
  `AssignedCell<Word, _>` (src/gadget/decompose.rs:123-129). The model
  writes the word `Word.New(v)`.
- **Byte split.** `decompose` calls `decompose_4` on that `u32`
  (src/gadget/decompose.rs:132). It is modelled as the `Word` method
  applied to `Word.New(v)`.
- **Byte cells in `decompose`.** The four byte closures yield `u8` values,
  but the cells are built as `AssignedChunk`s
  (src/gadget/decompose.rs:134-181). The model writes `Chunk.New(b)`.
- **XOR of bytes.** The closures in `synthesize` apply `*x0 ^ *y0` to values
  that are already `u8` (src/circuit.rs:88-98). The model takes the XOR of
  the two bytes.
- **Row value.** The compress row passes `x0.value_chunk()` where `add_row`
  takes an `Option<Chunk>` (src/circuit.rs:108-109). The model passes the
  chunk itself, which holds the same value.

## Model

| member | source | states |
|---|---|---|
| Words.Word.New | src/word.rs:14-16 | `Word::new` is total, and dereferencing the result gives back the `u32` it was given |
| Words.Chunk.New | src/word.rs:79-83 | `Chunk::new` is total, and dereferencing gives back the byte |
| Words.NewDeref | src/word.rs:27-33 | `new` and `deref` are mutually inverse, for words and for chunks |
| Words.DecomposeLittleEndian | src/word.rs:18-20 | `decompose_4` is `to_le_bytes`: byte `i` is `(v / 256^i) mod 256` |
| Words.ComposeDecompose | src/word.rs:18-24 | `compose(decompose_4(w)) == w` for every word |
| Words.DecomposeCompose | src/word.rs:18-24 | `decompose_4(compose(b)) == b` for every four bytes |
| Words.LeValueOfLeBytes | src/word.rs:18-24 | the little-endian value of the `n` little-endian bytes of `v < 256^n` is `v` |
| Words.LeBytesOfLeValue | src/word.rs:18-24 | the `|s|` little-endian bytes of the value of `s` are `s` |
| Words.DecomposeWeightedSum | src/word.rs:18-20 | a word equals `b0 + b1·2^8 + b2·2^16 + b3·2^24` over its four bytes |
| Words.Word.ToField | src/word.rs:48-52 | a word's field element is the word itself: no reduction modulo the Pallas order |
| Words.Chunk.ToField | src/word.rs:106-110 | a chunk's field element is the byte itself |
| Words.ToFieldInjective | src/word.rs:48-52 | distinct words, and distinct chunks, give distinct field elements |
| Words.AssignedWord.ValueWord | src/word.rs:43-45 | `value_word` is known exactly when the cell's word is, and then it is that word's `u32` |
| Words.AssignedChunk.ValueChunk | src/word.rs:101-103 | the chunk accessor is known exactly when the cell's chunk is, and then it is that chunk's byte |
| Words.AssignWord | src/word.rs:56-73 | opens one fresh "witness word" region and logs it. When proving with no value it fails with `Synthesis` and writes nothing. Otherwise it writes exactly row 0 of `column` with the demanded value and returns an `AssignedWord` holding that value and that cell |
| Words.AssignChunk | src/word.rs:114-131 | the same for a chunk |
| Words.XorEach | src/circuit.rs:88-98 | byte `i` of the result is `a[i] ^ b[i]`, for equally long byte strings |
| Words.LeValueXorEach | src/circuit.rs:88-98 | XOR of two numbers below `256^n` is the value of the byte-wise XOR of their little-endian bytes |
| Words.ComposeXorEach | src/circuit.rs:88-98 | composing the four byte-wise XORs of `decompose_4(x)` and `decompose_4(y)` gives the word `x ^ y` |
| Bitwise.XorSelf | src/gadget/xor.rs:269-275 | `a ^ a == 0` for every `a` |
| Bitwise.XorBound | src/gadget/xor.rs:154 | the XOR of two numbers below `2^k` is below `2^k` |
| Bitwise.XorByteBound | src/gadget/xor.rs:154 | `l ^ r` of two bytes is a byte |
| Bitwise.XorSplit | src/gadget/xor.rs:154 | XOR commutes with splitting at bit `k`: low bits XOR low bits, high bits XOR high bits |
| Bitwise.XorBytes | src/circuit.rs:88-98 | `a ^ b` is the XOR of the low bytes plus 256 times the XOR of the rest, and the low part is a byte |
| Halo2.Region.AssignAdvice | src/word.rs:64-69 | when proving with an unknown value it fails with `Synthesis` and changes nothing. Otherwise it sets exactly that cell to the demanded value (unknown during key generation) and returns that value. Selectors are unchanged |
| Halo2.Region.EnableSelector | src/gadget/decompose.rs:117 | adds exactly that selector row, cells unchanged |
| Halo2.Table.AssignCell | src/gadget/xor.rs:138-155 | sets exactly that table cell and appends it to the write log |
| Halo2.Layouter.AssignRegion | src/word.rs:61-63 | a fresh, empty region with the given name, appended to the log |
| Halo2.Layouter.AssignTable | src/gadget/xor.rs:129-131 | fresh, empty table columns with the given name, appended to the log |
| XorTable.Configure | src/gadget/xor.rs:81-115 | the inputs are the given columns. Three distinct, freshly allocated table columns. Exactly one lookup is added, pairing each input queried at the current row with its table column. Gates, advice and selectors are untouched |
| XorTable.TableDimensions | src/gadget/xor.rs:13 | each loop runs over `1 << XOR_BITS = 256` values, so the table has `256 · 256` rows |
| XorTable.Load | src/gadget/xor.rs:124-162 | succeeds, opens one fresh "xor table" and logs it, and leaves it holding exactly `LoadedCells(65536)`, having written the cells in `LoadOrder` (row by row, columns x, y, z) |
| XorTable.LoadStep | src/gadget/xor.rs:135-156 | the inner loop's body at `(l, r)` extends the table and the write order by exactly row `l·256 + r`, holding `(l, r, l ^ r)` |
| XorTable.LoadedCellsAt | src/gadget/xor.rs:135-158 | after `n` rows the table has a cell exactly in the three columns at rows below `n`, and row `k` holds `Entry(k)` |
| XorTable.LoadOrderWritesOnce | src/gadget/xor.rs:135-158 | `load` writes `3n` cells, never the same cell twice, covering exactly the three columns at rows below `n` |
| XorTable.EntryAt | src/gadget/xor.rs:136-155 | the row at offset `l·256 + r` lies in the table and holds `(l, r, l ^ r)` |
| XorTable.EntryUnique | src/gadget/xor.rs:136-156 | each byte pair `(x, y)` starts exactly one row, `x·256 + y`, and every entry is a byte |
| XorTable.InTableIff | src/gadget/xor.rs:124-162 | `(a, b, c)` is a row of the loaded table if and only if `a`, `b` are bytes and `c == a ^ b` |
| XorTable.UnusedRowAccepted | src/gadget/xor.rs:91-101 | the lookup has no selector; a row whose three input cells are unassigned or unknown reads `(0, 0, 0)` and is accepted against the loaded table |
| XorTable.LookupAccepts | src/gadget/xor.rs:91-101 | against the loaded table, the registered lookup holds at a row if and only if the row is a table row, and so if and only if it holds two bytes and their XOR |
| XorTable.AddRow | src/gadget/xor.rs:164-205 | writes `x`, `y`, `z` in that order. It succeeds if and only if it is not proving or all three are known. It fails only with `Synthesis`, and keeps the writes made before the first unknown value. On success it writes exactly the three cells of `row`. It does not check `z == x ^ y` |
| XorTable.TestXors | src/gadget/xor.rs:261-283 | `0 ^ 1 = 1`, `0x33 ^ 0x33 = 0`, `0x55 ^ 0xAA = 0xAA ^ 0x55 = 0xFF` |
| XorTable.TestRowsInTable | src/gadget/xor.rs:261-283 | the test's rows are table rows, and so is `(0xAA, 0x55, 0xFF)`. The row `(0xAA, 0x55, 0xFE)` is not |
| DecomposeGadget.Configure | src/gadget/decompose.rs:57-95 | keeps the three columns. Allocates one fresh selector. Adds exactly the decompose gate, which queries `a0`, `a1`, `a2` at the current row and `a0`, `a1` at the next. Lookups, advice and table columns are untouched |
| DecomposeGadget.Decompose | src/gadget/decompose.rs:106-186 | opens one fresh "decompose" region with the selector on at row 0 only. When proving an unknown word it fails with `Synthesis` before writing any cell. Otherwise it writes exactly `Layout`: the word at `(a0,0)`, its bytes at `(a1,0)`, `(a2,0)`, `(a0,1)`, `(a1,1)`. It returns those four chunks with their cells |
| DecomposeGadget.LayoutIsQueried | src/gadget/decompose.rs:76-81 | the cells `decompose` writes are exactly the five the gate reads at row 0, and `(a2, 1)` is never written |
| DecomposeGadget.LayoutSatisfiesGate | src/gadget/decompose.rs:73-92 | the layout of a known word satisfies the gate wherever the selector is on, and each of the four byte cells it writes holds a value below 256 |
| DecomposeGadget.GateDoesNotRangeCheck | src/gadget/decompose.rs:83-90 | the gate alone accepts a non-byte "chunk": word 256 split as `(256, 0, 0, 0)` satisfies it |
| DecomposeGadget.TestDecompositions | src/gadget/decompose.rs:266-277 | 5, 170 and 85 decompose as `(v, 0, 0, 0)` |
| XorCircuit.ConsecutiveDistinct | src/circuit.rs:44-51 | columns allocated one after another are pairwise distinct |
| XorCircuit.Configure | src/circuit.rs:42-69 | six pairwise distinct advice columns. `advice[0..3]` go to the decompose gadget and `advice[3..6]` are the lookup's inputs, over distinct table columns. Exactly one lookup and one gate are added |
| XorCircuit.ColumnsPartitioned | src/circuit.rs:60-61 | the decompose gadget's columns and the lookup's input columns are disjoint |
| XorCircuit.WithoutWitnesses | src/circuit.rs:38-40 | the default circuit has neither witness |
| XorCircuit.XorChunks | src/circuit.rs:88-98 | `z_i` is known exactly when both bytes are, and is then their XOR, a byte |
| XorCircuit.XorWordBytes | src/circuit.rs:88-98 | the four bytes of `x ^ y` are the byte-wise XORs of the bytes of `x` and of `y` |
| XorCircuit.XorOfBytes | src/circuit.rs:88-98 | with both words known, `z_i` is byte `i` of the word `x ^ y`. Otherwise all four are unknown |
| XorCircuit.BoundRow | src/circuit.rs:102-114 | the compress row covers exactly the three input cells of row 0. With both words known they hold the low byte of `x`, the low byte of `y` and the low byte of `x ^ y`. Otherwise `z` is unknown |
| XorCircuit.BoundRowAccepted | src/circuit.rs:102-114 | for all words, the bound compress row is accepted by the lookup against the loaded table |
| XorCircuit.WitnessCells | src/word.rs:61-72 | a "witness word" region is empty exactly when proving with an unknown word. Otherwise its only cell is row 0 of `advice[0]`, holding the word when proving and unknown during key generation |
| XorCircuit.WitnessWords | src/circuit.rs:82-83 | opens "witness word" regions in order and logs them: one when proving with `x` unknown (the panic at line 82 comes before `y`'s region), two otherwise. Each holds its word at row 0 of `advice[0]` (`WitnessCells`) and enables no selector. Stops (the `unwrap` panic) exactly when proving with `x` or `y` unknown. Otherwise returns both assigned words, bound to that cell and holding their demanded values |
| XorCircuit.DecomposeAndCompress | src/circuit.rs:85-114 | with both words witnessed, logs regions "decompose", "decompose", "compress" in that order. Each decompose region holds its word's `Layout` with the selector at row 0. The compress region holds `BoundRow` and enables no selector. The returned chunks are `XorOfBytes` |
| XorCircuit.Synthesize | src/circuit.rs:71-119 | the table is logged first and then the regions, named "xor table", "witness word" ×2, "decompose" ×2, "compress". The table holds `LoadedCells(65536)`. The witness-word regions hold `WitnessCells` of `x` and `y`, with no selector. The pass panics if and only if it is proving with a witness missing, and never returns an error. A panic comes after x's region when `x` is missing, and after y's region when only `y` is missing. On success the z bytes are `XorOfBytes` of the demanded words and the decompose regions hold their layouts. The compress row is `BoundRow`, with no selector. During key generation every z is unknown |
| XorCircuit.RegionRowsAccepted | src/gadget/xor.rs:91-101 | for all words and every row, the selector-less lookup holds in both witness-word regions, both decompose regions and the compress region of a successful pass |
| XorCircuit.SynthesisSound | src/circuit.rs:71-119 | for all words: the four z bytes compose to `x ^ y`, both decompose regions satisfy the gate, the compress row passes the XOR lookup, and the lookup holds at every row of every region the pass writes |
| XorCircuit.MainCircuitExample | src/circuit.rs:131-140 | `x = 170`, `y = 85`: the byte-wise XOR is `(255, 0, 0, 0)`, the word is 255, `(170, 85, 255)` is a table row and `(170, 85, 254)` is not |

## Left out

- The proving system itself (commitments, the permutation and lookup arguments, blinding rows) is not modelled. A gate or lookup "holds" when its relation holds on the assigned values (`GateSatisfied`, `LookupHolds`). The circuit tests' `k` (2^17 rows for the table) is not modelled either.
- The floor planner is not modelled. Each region and the table are their own grid with rows relative to their start.
- Field arithmetic is not modelled: values are natural numbers. Every value the core writes is below 2^32, so no reduction happens (`Word.ToField`).
- `Gate::decompose_32_to_8` is defined in the crate's `gates` module (imported at src/gadget/decompose.rs:19), which is not part of this model. The gate is taken to be the weighted sum `word − (x0 + x1·2^8 + x2·2^16 + x3·2^24) = 0` (`DecomposeGadget.WeightedSum`).
- `enable_equality` on the advice columns and the commented-out instance column are not modelled. No copy constraint is ever made: `decompose` writes the word into a new cell that is not tied to the cell `assign_word` wrote.
- The `println!` of `z0..z3` in `synthesize` is not modelled. The four values are returned in `Outcome.Synthesized` instead.
- Annotation strings (`"x: {}"`, `"witness"`, namespace names) are not modelled. Region and table names are.
- `construct`, `config` and `loaded` of the two chips only wrap or return their configuration, so they are not modelled.
- The unused `ChunkWord` and `ChunkVar` definitions are not modelled.
- XorTable.Load: states that `load` always succeeds. The closures it passes to `assign_cell` never fail in the source, and the backend's own capacity errors are not modelled.
- XorCircuit.Synthesize: treats the `unwrap` panic as an outcome (`Panicked`) and does not model what the caller of `synthesize` does with it.
