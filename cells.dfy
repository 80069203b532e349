/** pandas float64 cells and data frames: what the DataFrame-based ratio
    calculators compute with. Division by zero does not raise here: it gives
    an infinity or NaN, and NaN propagates through arithmetic. */
module Cells {
  import opened Py
  import opened Dates

  /** A float64 value: finite, NaN, or an infinity of either sign. */
  datatype Cell = Num(v: real) | NaN | Inf(negative: bool)

  function Neg(a: Cell): Cell {
    match a
    case Num(x) => Num(-x)
    case NaN => NaN
    case Inf(n) => Inf(!n)
  }

  function Abs(a: Cell): Cell {
    match a
    case Num(x) => Num(if x < 0.0 then -x else x)
    case NaN => NaN
    case Inf(_) => Inf(false)
  }

  function Add(a: Cell, b: Cell): Cell {
    match (a, b)
    case (NaN, _) => NaN
    case (_, NaN) => NaN
    case (Inf(x), Inf(y)) => if x == y then Inf(x) else NaN
    case (Inf(x), Num(_)) => Inf(x)
    case (Num(_), Inf(y)) => Inf(y)
    case (Num(x), Num(y)) => Num(x + y)
  }

  function Sub(a: Cell, b: Cell): Cell {
    Add(a, Neg(b))
  }

  function Mul(a: Cell, b: Cell): Cell {
    match (a, b)
    case (NaN, _) => NaN
    case (_, NaN) => NaN
    case (Inf(x), Inf(y)) => Inf(x != y)
    case (Inf(x), Num(y)) => if y == 0.0 then NaN else Inf(x != (y < 0.0))
    case (Num(x), Inf(y)) => if x == 0.0 then NaN else Inf(y != (x < 0.0))
    case (Num(x), Num(y)) => Num(x * y)
  }

  /** IEEE division: a non-zero number over zero is an infinity, zero over
      zero is NaN. */
  function Div(a: Cell, b: Cell): Cell {
    match (a, b)
    case (NaN, _) => NaN
    case (_, NaN) => NaN
    case (Inf(_), Inf(_)) => NaN
    case (Inf(x), Num(y)) => Inf(x != (y < 0.0))
    case (Num(_), Inf(_)) => Num(0.0)
    case (Num(x), Num(y)) =>
      if y != 0.0 then Num(x / y) else if x == 0.0 then NaN else Inf(x < 0.0)
  }

  function Scale(a: Cell, k: real): Cell {
    Mul(a, Num(k))
  }

  /** `a > b`; every comparison with NaN is false. */
  predicate Gt(a: Cell, b: Cell) {
    match (a, b)
    case (NaN, _) => false
    case (_, NaN) => false
    case (Inf(x), Inf(y)) => !x && y
    case (Inf(x), Num(_)) => !x
    case (Num(_), Inf(y)) => y
    case (Num(x), Num(y)) => x > y
  }

  // ---------------------------------------------------------------------
  // Columns and frames
  // ---------------------------------------------------------------------

  /** A column: its cells, and whether pandas gives it a numeric dtype (a
      column created empty and filled cell by cell keeps the object dtype). */
  datatype Column = Column(numeric: bool, cells: seq<Cell>)

  /** A data frame: its row labels (dates) and its columns in order. */
  datatype Frame = Frame(index: seq<Date>, cols: Dict<string, Column>)

  /** Every column has one cell per row and the row labels are distinct. */
  predicate WellFormed(f: Frame) {
    Distinct(f.index)
    && forall name :: name in f.cols.items ==> |f.cols.items[name].cells| == |f.index|
  }

  predicate HasColumn(f: Frame, name: string) {
    name in f.cols.items
  }

  /** `f[name]`. */
  function Col(f: Frame, name: string): seq<Cell>
    requires HasColumn(f, name)
  {
    f.cols.items[name].cells
  }

  /** `pd.DataFrame(index=index)`: rows and no columns. */
  function EmptyFrame(index: seq<Date>): Frame {
    Frame(index, EmptyDict())
  }

  /** `f[name] = cells` for a float column. */
  function SetColumn(f: Frame, name: string, cells: seq<Cell>): Frame {
    Frame(f.index, Assign(f.cols, name, Column(true, cells)))
  }

  /** A column created empty (`pd.DataFrame(index=..., columns=[name])`)
      and filled with `.loc` cell by cell: it keeps the object dtype. */
  function SetObjectColumn(f: Frame, name: string, cells: seq<Cell>): Frame {
    Frame(f.index, Assign(f.cols, name, Column(false, cells)))
  }

  /** `f[name] = cells` when there is a column to store. */
  function SetIf(f: Frame, name: string, cells: Option<seq<Cell>>): Frame {
    if cells.Some? then SetColumn(f, name, cells.value) else f
  }

  /** Storing a column adds that name, replaces only that column and
      keeps the rows. */
  lemma SetIfColumns(f: Frame, name: string, cells: Option<seq<Cell>>, other: string)
    ensures SetIf(f, name, cells).index == f.index
    ensures HasColumn(SetIf(f, name, cells), other) <==> HasColumn(f, other) || (other == name && cells.Some?)
    ensures HasColumn(SetIf(f, name, cells), other) ==>
              Col(SetIf(f, name, cells), other) == if other == name && cells.Some? then cells.value else Col(f, other)
  {
  }

  /** `f.empty`: no rows or no columns. */
  predicate Empty(f: Frame) {
    |f.index| == 0 || |f.cols.keys| == 0
  }

  /** Element-wise `a / b` of two series over the same rows. */
  function ColDiv(a: seq<Cell>, b: seq<Cell>): seq<Cell>
    requires |a| == |b|
  {
    seq(|a|, i requires 0 <= i < |a| => Div(a[i], b[i]))
  }

  /** Element-wise `a - b`. */
  function ColSub(a: seq<Cell>, b: seq<Cell>): seq<Cell>
    requires |a| == |b|
  {
    seq(|a|, i requires 0 <= i < |a| => Sub(a[i], b[i]))
  }

  /** `a / k` for a scalar k. */
  function ColDivBy(a: seq<Cell>, k: Cell): seq<Cell> {
    seq(|a|, i requires 0 <= i < |a| => Div(a[i], k))
  }

  /** A scalar broadcast to every row. */
  function Broadcast(k: Cell, n: nat): seq<Cell> {
    seq(n, _ => k)
  }

  /** The value a series indexed by `labels` holds at label `d`, NaN when `d`
      is not a label: what index alignment reads. */
  function ValueAt(labels: seq<Date>, cells: seq<Cell>, d: Date): Cell
    requires |cells| == |labels|
  {
    if d in labels then cells[IndexOf(labels, d)] else NaN
  }

  /** A series re-read on other row labels (pandas alignment). */
  function Align(labels: seq<Date>, cells: seq<Cell>, to: seq<Date>): seq<Cell>
    requires |cells| == |labels|
  {
    seq(|to|, i requires 0 <= i < |to| => ValueAt(labels, cells, to[i]))
  }
}
