/**
 * The row of the current generation (Pod/Classes/Row.swift): a reference
 * object whose setters update its fields in place, with edit capabilities
 * derived from a movable flag and an editing style.
 */
module PodRow {
  import opened Toolkit

  /** The widget's cell editing style; the row only ever uses these three. */
  datatype EditingStyle = StyleNone | StyleDelete | StyleInsert

  /** Computes a row height from the widget and the row's rendered index. */
  type HeightForRow = (TableView, int) -> real

  /** Every field of a row except its identity, as one value. */
  datatype RowState = RowState(
    identifier: Option<string>,
    visible: bool,
    editingStyle: EditingStyle,
    movable: bool,
    deleteConfirmation: Option<string>,
    obj: object?,
    configuration: Option<Closure>,
    didSelect: Option<Closure>,
    heightForRow: Option<HeightForRow>)

  /** The state `init(identifier:visible:object:)` gives a new row. */
  ghost function InitialRowState(identifier: Option<string>, visible: bool, obj: object?): RowState
  {
    RowState(identifier, visible, StyleNone, false, None, obj, None, None, None)
  }

  class Row {
    /** Identity used by `==`; assigned once, at creation. */
    const id: Token
    var identifier: Option<string>
    var visible: bool
    var editingStyle: EditingStyle
    var movable: bool
    var deleteConfirmation: Option<string>
    /** The consumer's associated object (`object` in the source). */
    var obj: object?
    var configuration: Option<Closure>
    var didSelect: Option<Closure>
    var heightForRow: Option<HeightForRow>

    ghost function State(): RowState
      reads this
    {
      RowState(identifier, visible, editingStyle, movable, deleteConfirmation, obj,
               configuration, didSelect, heightForRow)
    }

    constructor (identifier: Option<string> := None, visible: bool := true, obj: object? := null)
      ensures fresh(id)
      ensures State() == InitialRowState(identifier, visible, obj)
      ensures !CanEdit()
    {
      id := new Token();
      this.identifier := identifier;
      this.visible := visible;
      this.obj := obj;
      editingStyle := StyleNone;
      movable := false;
      deleteConfirmation := None;
      configuration := None;
      didSelect := None;
      heightForRow := None;
    }

    predicate CanMove()
      reads this
    {
      movable
    }

    predicate CanDelete()
      reads this
    {
      editingStyle == StyleDelete
    }

    /** Not reachable by consumers: the source keeps it file-private. */
    predicate CanInsert()
      reads this
    {
      editingStyle == StyleInsert
    }

    predicate CanEdit()
      reads this
    {
      CanMove() || CanDelete() || CanInsert()
    }

    /** The source's `==`: rows are the same row exactly when they share an identity. */
    static predicate Equal(lhs: Row, rhs: Row)
    {
      lhs.id == rhs.id
    }

    method SetIdentifier(identifier: string)
      modifies this
      ensures State() == old(State()).(identifier := Some(identifier))
    {
      this.identifier := Some(identifier);
    }

    method SetObject(obj: object)
      modifies this
      ensures State() == old(State()).(obj := obj)
    {
      this.obj := obj;
    }

    method SetCanMove(movable: bool)
      modifies this
      ensures State() == old(State()).(movable := movable)
      ensures CanMove() == movable && CanDelete() == old(CanDelete())
    {
      this.movable := movable;
    }

    method SetCanDelete(deletable: bool, titleForDeleteConfirmation: Option<string> := None)
      modifies this
      ensures State() == old(State()).(editingStyle := if deletable then StyleDelete else StyleNone,
                                       deleteConfirmation := titleForDeleteConfirmation)
      ensures CanDelete() == deletable && !CanInsert() && CanMove() == old(CanMove())
    {
      editingStyle := if deletable then StyleDelete else StyleNone;
      deleteConfirmation := titleForDeleteConfirmation;
    }

    /** Not reachable by consumers: the source keeps it file-private. */
    method SetCanInsert(insertable: bool)
      modifies this
      ensures State() == old(State()).(editingStyle := if insertable then StyleInsert else StyleNone)
      ensures CanInsert() == insertable && !CanDelete()
    {
      editingStyle := if insertable then StyleInsert else StyleNone;
    }

    method SetConfiguration(block: Closure)
      modifies this
      ensures State() == old(State()).(configuration := Some(block))
    {
      configuration := Some(block);
    }

    method SetDidSelect(block: Closure)
      modifies this
      ensures State() == old(State()).(didSelect := Some(block))
    {
      didSelect := Some(block);
    }

    method SetDynamicHeight(dynamicHeight: HeightForRow)
      modifies this
      ensures State() == old(State()).(heightForRow := Some(dynamicHeight))
    {
      heightForRow := Some(dynamicHeight);
    }

    /** Installs, in the same slot as the dynamic setter, a closure that ignores its arguments. */
    method SetStaticHeight(staticHeight: real)
      modifies this
      ensures heightForRow.Some?
      ensures forall tableView, index :: heightForRow.value(tableView, index) == staticHeight
      ensures State() == old(State()).(heightForRow := heightForRow)
    {
      SetDynamicHeight((tableView, index) => staticHeight);
    }
  }

  /** The visibility of each row of `rows`, position by position. */
  function RowVisibility(rows: seq<Row>): (flags: seq<bool>)
    reads rows
    ensures |flags| == |rows|
    ensures forall i :: 0 <= i < |rows| ==> flags[i] == rows[i].visible
  {
    seq(|rows|, i requires 0 <= i < |rows| reads rows => rows[i].visible)
  }

  /**
   * Swift's `firstIndex(where: { $0 == row })`: the first position holding a
   * row with the given identity, or None.
   */
  function FirstIndexOf(rows: seq<Row>, row: Row): (i: Option<nat>)
    ensures i.Some? ==> i.value < |rows| && Row.Equal(rows[i.value], row)
    ensures i.Some? ==> forall j :: 0 <= j < i.value ==> !Row.Equal(rows[j], row)
    ensures i.None? <==> forall j :: 0 <= j < |rows| ==> !Row.Equal(rows[j], row)
  {
    if rows == [] then None
    else if Row.Equal(rows[0], row) then Some(0)
    else match FirstIndexOf(rows[1..], row)
      case None => None
      case Some(k) => Some(k + 1)
  }

  /** canEdit holds exactly when the row is movable or has any editing style. */
  lemma CanEditIffCapability(r: Row)
    ensures r.CanEdit() <==> r.movable || r.editingStyle != StyleNone
    ensures r.CanDelete() <==> r.editingStyle == StyleDelete
    ensures !(r.CanDelete() && r.CanInsert())
  {
  }

  /** `==` is an equivalence that no mutable field can influence. */
  lemma EqualIsIdentity(a: Row, b: Row, c: Row)
    ensures Row.Equal(a, a)
    ensures Row.Equal(a, b) <==> Row.Equal(b, a)
    ensures Row.Equal(a, b) && Row.Equal(b, c) ==> Row.Equal(a, c)
    ensures Row.Equal(a, b) <==> a.id == b.id
  {
  }
}
