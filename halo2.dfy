/**
 * The part of the halo2 constraint-system API the gadgets consume, reduced
 * to what they observe: column and selector allocation, gate and lookup
 * registration, and cell assignment into regions and a lookup table.
 *
 * Field elements are natural numbers: every value the circuit writes is
 * below 2^32, far below the Pallas base-field modulus, so no reduction
 * ever happens. Each region is its own grid with rows relative to the
 * region's start; where the floor planner places it is not modelled.
 */
module Halo2 {
  import opened Wrappers

  /** The only error the core raises: a concrete value was demanded but the
   *  witness was unknown. */
  datatype Error = Synthesis

  type Column = nat       // index of an advice column
  type TableColumn = nat  // index of a lookup-table (fixed) column
  type Selector = nat     // index of a selector

  datatype Rotation = Cur | Next

  /** An advice cell of a region: column and row relative to the region. */
  datatype Cell = Cell(column: Column, row: nat)

  datatype TableCell = TableCell(column: TableColumn, row: nat)

  /** A selector switched on at a row of a region. */
  datatype SelectorRow = SelectorRow(selector: Selector, row: nat)

  /** `meta.query_advice(column, rotation)`. */
  datatype Query = Query(column: Column, rotation: Rotation)

  /** The cell a query reads when its gate or lookup is evaluated at `row`. */
  function At(q: Query, row: nat): (c: Cell)
    ensures c.column == q.column
    ensures c.row == if q.rotation == Cur then row else row + 1
  {
    Cell(q.column, match q.rotation case Cur => row case Next => row + 1)
  }

  /** The value a cell contributes to a constraint: its known value, or zero
   *  when it was never assigned (or its value was never computed). */
  function Known(advice: map<Cell, Option<nat>>, c: Cell): nat
  {
    if c in advice && advice[c].Some? then advice[c].value else 0
  }

  /** A custom gate: the polynomial is applied to the cells its queries name,
   *  wherever its selector is on. Which polynomial it is belongs to the
   *  gadget that registers it. */
  datatype Gate = Gate(name: string, selector: Selector, queries: seq<Query>)

  /** A lookup argument: `inputs[i]` is looked up in table column `table[i]`,
   *  at every row. */
  datatype Lookup = Lookup(inputs: seq<Query>, table: seq<TableColumn>)

  /** Table row `k` holds the values of the lookup's inputs evaluated at `row`. */
  predicate RowMatches(l: Lookup, advice: map<Cell, Option<nat>>, row: nat,
                       cells: map<TableCell, nat>, k: nat)
  {
    && |l.inputs| == |l.table|
    && forall i :: 0 <= i < |l.inputs| ==>
         && TableCell(l.table[i], k) in cells
         && cells[TableCell(l.table[i], k)] == Known(advice, At(l.inputs[i], row))
  }

  /** The lookup argument is satisfied at `row` of a region's grid. */
  ghost predicate LookupHolds(l: Lookup, advice: map<Cell, Option<nat>>, row: nat,
                              cells: map<TableCell, nat>)
  {
    exists k: nat :: RowMatches(l, advice, row, cells, k)
  }

  /** The configuration being built by `configure`. */
  datatype ConstraintSystem = ConstraintSystem(
    numAdvice: nat,
    numSelectors: nat,
    numTableColumns: nat,
    gates: seq<Gate>,
    lookups: seq<Lookup>)

  /** Something allocated in, or registered with, a constraint system,
   *  together with the updated system. */
  datatype Allocated<T> = Allocated(cs: ConstraintSystem, item: T)

  /** `meta.advice_column()`: the next unused advice column. */
  function AdviceColumn(cs: ConstraintSystem): (r: Allocated<Column>)
    ensures r.item == cs.numAdvice
    ensures r.cs == cs.(numAdvice := cs.numAdvice + 1)
  {
    Allocated(cs.(numAdvice := cs.numAdvice + 1), cs.numAdvice)
  }

  /** `meta.selector()`. */
  function NewSelector(cs: ConstraintSystem): (r: Allocated<Selector>)
    ensures r.item == cs.numSelectors
    ensures r.cs == cs.(numSelectors := cs.numSelectors + 1)
  {
    Allocated(cs.(numSelectors := cs.numSelectors + 1), cs.numSelectors)
  }

  /** `meta.lookup_table_column()`. */
  function LookupTableColumn(cs: ConstraintSystem): (r: Allocated<TableColumn>)
    ensures r.item == cs.numTableColumns
    ensures r.cs == cs.(numTableColumns := cs.numTableColumns + 1)
  {
    Allocated(cs.(numTableColumns := cs.numTableColumns + 1), cs.numTableColumns)
  }

  /** The value the backend actually evaluates for an advice assignment.
   *  When `proving` is set (a proof is being made) it is the caller's value;
   *  when it is unset (key generation) the value closure is never called and
   *  the cell's value stays unknown. Table cells are fixed and always get
   *  their value. */
  function Demanded<T>(proving: bool, value: Option<T>): Option<T>
  {
    if proving then value else None
  }

  /** A region handed out by `assign_region`, updated in place by the gadgets. */
  class Region {
    const name: string
    /** Whether this synthesis pass demands concrete values (proving rather than key generation). */
    const proving: bool
    /** Assigned advice cells; `None` for a cell placed without a value. */
    var advice: map<Cell, Option<nat>>
    var enabled: set<SelectorRow>

    constructor (name: string, proving: bool)
      ensures this.name == name && this.proving == proving
      ensures advice == map[] && enabled == {}
    {
      this.name := name;
      this.proving := proving;
      advice := map[];
      enabled := {};
    }

    /** `region.assign_advice(column, row, || value.ok_or(Error::Synthesis))`. */
    method AssignAdvice(column: Column, row: nat, value: Option<nat>)
      returns (r: Result<Option<nat>, Error>)
      modifies this
      ensures enabled == old(enabled)
      ensures proving && value.None? ==> r == Err(Synthesis) && advice == old(advice)
      ensures !(proving && value.None?) ==>
                && r == Ok(Demanded(proving, value))
                && advice == old(advice)[Cell(column, row) := Demanded(proving, value)]
    {
      if proving && value.None? {
        return Err(Synthesis);
      }
      var v := Demanded(proving, value);
      advice := advice[Cell(column, row) := v];
      r := Ok(v);
    }

    /** `selector.enable(&mut region, row)`. */
    method EnableSelector(selector: Selector, row: nat)
      modifies this
      ensures advice == old(advice)
      ensures enabled == old(enabled) + {SelectorRow(selector, row)}
    {
      enabled := enabled + {SelectorRow(selector, row)};
    }
  }

  /** The lookup-table columns handed out by `assign_table`. */
  class Table {
    const name: string
    var cells: map<TableCell, nat>
    /** Every `assign_cell`, in the order it happened. */
    ghost var writes: seq<TableCell>

    constructor (name: string)
      ensures this.name == name && cells == map[] && writes == []
    {
      this.name := name;
      cells := map[];
      writes := [];
    }

    /** `table.assign_cell(column, row, || Ok(F::from(value)))`. */
    method AssignCell(column: TableColumn, row: nat, value: nat)
      modifies this
      ensures cells == old(cells)[TableCell(column, row) := value]
      ensures writes == old(writes) + [TableCell(column, row)]
    {
      cells := cells[TableCell(column, row) := value];
      writes := writes + [TableCell(column, row)];
    }
  }

  datatype Assignment = TableAssigned(table: Table) | RegionAssigned(region: Region)
  {
    function Name(): string
    {
      match this
      case TableAssigned(t) => t.name
      case RegionAssigned(r) => r.name
    }
  }

  /** The layouter of one synthesis pass. */
  class Layouter {
    /** True when proving (values are demanded), false during key generation. */
    const proving: bool
    /** Every table and region assigned so far, in order. */
    ghost var log: seq<Assignment>

    constructor (proving: bool)
      ensures this.proving == proving && log == []
    {
      this.proving := proving;
      log := [];
    }

    /** `layouter.assign_region(name, ...)`: a fresh, empty region. */
    method AssignRegion(name: string) returns (region: Region)
      modifies this
      ensures fresh(region) && region.name == name && region.proving == proving
      ensures region.advice == map[] && region.enabled == {}
      ensures log == old(log) + [RegionAssigned(region)]
    {
      region := new Region(name, proving);
      log := log + [RegionAssigned(region)];
    }

    /** `layouter.assign_table(name, ...)`: fresh, empty table columns. */
    method AssignTable(name: string) returns (table: Table)
      modifies this
      ensures fresh(table) && table.name == name
      ensures table.cells == map[] && table.writes == []
      ensures log == old(log) + [TableAssigned(table)]
    {
      table := new Table(name);
      log := log + [TableAssigned(table)];
    }
  }
}
