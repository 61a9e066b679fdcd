/**
 * The row of the second generation (TableManager/TableManager/Row.swift): a
 * reference object with an optional cell identifier, a visibility flag, an
 * associated object and three closure slots, each set by its own setter.
 */
module MidRow {
  import opened Toolkit

  /** Computes a row height from the widget and the row's rendered index. */
  type HeightForRow = (TableView, int) -> real

  /** Every field of a row, as one value. */
  datatype RowState = RowState(
    identifier: Option<string>,
    visible: bool,
    obj: object?,
    configuration: Option<Closure>,
    didSelect: Option<Closure>,
    heightForRow: Option<HeightForRow>)

  class Row {
    var identifier: Option<string>
    var visible: bool
    /** The consumer's associated object (`object` in the source). */
    var obj: object?
    var configuration: Option<Closure>
    var didSelect: Option<Closure>
    var heightForRow: Option<HeightForRow>

    ghost function State(): RowState
      reads this
    {
      RowState(identifier, visible, obj, configuration, didSelect, heightForRow)
    }

    /** Stores the three arguments; every closure slot starts empty. */
    constructor (identifier: Option<string> := None, visible: bool := true, obj: object? := null)
      ensures State() == RowState(identifier, visible, obj, None, None, None)
    {
      this.identifier := identifier;
      this.visible := visible;
      this.obj := obj;
      configuration := None;
      didSelect := None;
      heightForRow := None;
    }

    method SetIdentifier(identifier: string)
      modifies this
      ensures State() == old(State()).(identifier := Some(identifier))
    {
      this.identifier := Some(identifier);
    }

    method SetObject(obj: object)
      modifies this
      ensures State() == old(State()).(obj := obj)
    {
      this.obj := obj;
    }

    method SetConfiguration(block: Closure)
      modifies this
      ensures State() == old(State()).(configuration := Some(block))
    {
      configuration := Some(block);
    }

    method SetDidSelect(block: Closure)
      modifies this
      ensures State() == old(State()).(didSelect := Some(block))
    {
      didSelect := Some(block);
    }

    method SetDynamicHeight(dynamicHeight: HeightForRow)
      modifies this
      ensures State() == old(State()).(heightForRow := Some(dynamicHeight))
    {
      heightForRow := Some(dynamicHeight);
    }

    /** Installs, in the same slot as the dynamic setter, a closure that ignores its arguments. */
    method SetStaticHeight(staticHeight: real)
      modifies this
      ensures heightForRow.Some?
      ensures forall tableView, index :: heightForRow.value(tableView, index) == staticHeight
      ensures State() == old(State()).(heightForRow := heightForRow)
    {
      SetDynamicHeight((tableView, index) => staticHeight);
    }
  }

  /** The visibility of each row of `rows`, position by position. */
  function RowVisibility(rows: seq<Row>): (flags: seq<bool>)
    reads rows
    ensures |flags| == |rows|
    ensures forall i :: 0 <= i < |rows| ==> flags[i] == rows[i].visible
  {
    seq(|rows|, i requires 0 <= i < |rows| reads rows => rows[i].visible)
  }
}
