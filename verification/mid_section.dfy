/**
 * The section of the second generation (Section.swift): an ordered list of
 * rows, a visibility flag, an associated object and six header/footer closure
 * slots. Unlike the current generation, reading past the end of the rendered
 * rows appends a new row to the section.
 */
module MidSection {
  import opened Toolkit
  import opened Filtering
  import opened MidRow

  /**
   * The cell identifier given to rows made up by an out-of-range lookup. The
   * declaration it refers to is not part of this model; its value here is the
   * one Pod/Classes/TableManager.swift:11 gives the constant of that name.
   */
  const DefaultCellIdentifier: string := "DefaultCellIdentifier"

  type HeightForHeader = (TableView, int) -> real
  type ViewForHeader = (TableView, int) -> View
  type TitleForHeader = (TableView, int) -> string
  type HeightForFooter = (TableView, int) -> real
  type ViewForFooter = (TableView, int) -> View
  type TitleForFooter = (TableView, int) -> string

  /** Every field of a section, as one value. */
  datatype SectionState = SectionState(
    visible: bool,
    obj: object?,
    rows: seq<Row>,
    heightForHeader: Option<HeightForHeader>,
    titleForHeader: Option<TitleForHeader>,
    viewForHeader: Option<ViewForHeader>,
    heightForFooter: Option<HeightForFooter>,
    titleForFooter: Option<TitleForFooter>,
    viewForFooter: Option<ViewForFooter>)

  class Section {
    var visible: bool
    /** The consumer's associated object (`object` in the source). */
    var obj: object?
    var rows: seq<Row>
    var heightForHeader: Option<HeightForHeader>
    var titleForHeader: Option<TitleForHeader>
    var viewForHeader: Option<ViewForHeader>
    var heightForFooter: Option<HeightForFooter>
    var titleForFooter: Option<TitleForFooter>
    var viewForFooter: Option<ViewForFooter>

    ghost function State(): SectionState
      reads this
    {
      SectionState(visible, obj, rows, heightForHeader, titleForHeader, viewForHeader,
                   heightForFooter, titleForFooter, viewForFooter)
    }

    /** Stores both arguments; the section starts with no rows and no closures. */
    constructor (visible: bool := true, obj: object? := null)
      ensures State() == SectionState(visible, obj, [], None, None, None, None, None, None)
    {
      this.visible := visible;
      this.obj := obj;
      rows := [];
      heightForHeader, titleForHeader, viewForHeader := None, None, None;
      heightForFooter, titleForFooter, viewForFooter := None, None, None;
    }

    /** The rows with `visible` set, in their order in `rows`; recomputed on every call. */
    function VisibleRows(): (r: seq<Row>)
      reads this, rows
      ensures forall k :: 0 <= k < |r| ==> r[k] in rows && r[k].visible
      ensures forall i :: 0 <= i < |rows| && rows[i].visible ==> rows[i] in r
      ensures Selects(r, rows, RowVisibility(rows))
    {
      var flags := RowVisibility(rows);
      KeepSelects(rows, flags);
      KeepMembers(rows, flags);
      Keep(rows, flags)
    }

    /**
     * The rendered row at `index`. Past the end, a new visible row with the
     * default identifier is appended to `rows` and returned, so `rows` grows
     * by exactly one (and, by `VisibleAppend`, so do the rendered rows). A
     * negative index traps in the source.
     */
    method RowAt(index: int) returns (r: Row)
      requires 0 <= index
      modifies this
      ensures index < |old(VisibleRows())| ==> r == old(VisibleRows())[index] && rows == old(rows)
      ensures index >= |old(VisibleRows())| ==>
                && fresh(r) && IsPlaceholder(r)
                && rows == old(rows) + [r]
      ensures State() == old(State()).(rows := rows)
    {
      var visibleRows := VisibleRows();
      if |visibleRows| > index {
        r := visibleRows[index];
      } else {
        r := new Row(Some(DefaultCellIdentifier));
        rows := rows + [r];
      }
    }

    method SetObject(obj: object)
      modifies this
      ensures State() == old(State()).(obj := obj)
    {
      this.obj := obj;
    }

    method SetHeaderDynamicText(dynamicText: TitleForHeader)
      modifies this
      ensures State() == old(State()).(titleForHeader := Some(dynamicText))
    {
      titleForHeader := Some(dynamicText);
    }

    /** Installs, in the dynamic title slot, a closure that always yields `staticText`. */
    method SetHeaderStaticText(staticText: string)
      modifies this
      ensures titleForHeader.Some?
      ensures forall tableView, index :: titleForHeader.value(tableView, index) == staticText
      ensures State() == old(State()).(titleForHeader := titleForHeader)
    {
      SetHeaderDynamicText((tableView, index) => staticText);
    }

    method SetHeaderDynamicView(dynamicView: ViewForHeader)
      modifies this
      ensures State() == old(State()).(viewForHeader := Some(dynamicView))
    {
      viewForHeader := Some(dynamicView);
    }

    /** Installs, in the dynamic view slot, a closure that always yields `staticView`. */
    method SetHeaderStaticView(staticView: View)
      modifies this
      ensures viewForHeader.Some?
      ensures forall tableView, index :: viewForHeader.value(tableView, index) == staticView
      ensures State() == old(State()).(viewForHeader := viewForHeader)
    {
      SetHeaderDynamicView((tableView, index) => staticView);
    }

    method SetHeaderDynamicHeight(dynamicHeight: HeightForHeader)
      modifies this
      ensures State() == old(State()).(heightForHeader := Some(dynamicHeight))
    {
      heightForHeader := Some(dynamicHeight);
    }

    /** Installs, in the dynamic height slot, a closure that always yields `staticHeight`. */
    method SetHeaderStaticHeight(staticHeight: real)
      modifies this
      ensures heightForHeader.Some?
      ensures forall tableView, index :: heightForHeader.value(tableView, index) == staticHeight
      ensures State() == old(State()).(heightForHeader := heightForHeader)
    {
      SetHeaderDynamicHeight((tableView, index) => staticHeight);
    }

    method SetFooterDynamicText(dynamicText: TitleForFooter)
      modifies this
      ensures State() == old(State()).(titleForFooter := Some(dynamicText))
    {
      titleForFooter := Some(dynamicText);
    }

    /** Installs, in the dynamic title slot, a closure that always yields `staticText`. */
    method SetFooterStaticText(staticText: string)
      modifies this
      ensures titleForFooter.Some?
      ensures forall tableView, index :: titleForFooter.value(tableView, index) == staticText
      ensures State() == old(State()).(titleForFooter := titleForFooter)
    {
      SetFooterDynamicText((tableView, index) => staticText);
    }

    method SetFooterDynamicView(dynamicView: ViewForFooter)
      modifies this
      ensures State() == old(State()).(viewForFooter := Some(dynamicView))
    {
      viewForFooter := Some(dynamicView);
    }

    /** Installs, in the dynamic view slot, a closure that always yields `staticView`. */
    method SetFooterStaticView(staticView: View)
      modifies this
      ensures viewForFooter.Some?
      ensures forall tableView, index :: viewForFooter.value(tableView, index) == staticView
      ensures State() == old(State()).(viewForFooter := viewForFooter)
    {
      SetFooterDynamicView((tableView, index) => staticView);
    }

    method SetFooterDynamicHeight(dynamicHeight: HeightForFooter)
      modifies this
      ensures State() == old(State()).(heightForFooter := Some(dynamicHeight))
    {
      heightForFooter := Some(dynamicHeight);
    }

    /** Installs, in the dynamic height slot, a closure that always yields `staticHeight`. */
    method SetFooterStaticHeight(staticHeight: real)
      modifies this
      ensures heightForFooter.Some?
      ensures forall tableView, index :: heightForFooter.value(tableView, index) == staticHeight
      ensures State() == old(State()).(heightForFooter := heightForFooter)
    {
      SetFooterDynamicHeight((tableView, index) => staticHeight);
    }
  }

  /** A row as an out-of-range lookup makes it: default identifier, visible, nothing else set. */
  ghost predicate IsPlaceholder(r: Row)
    reads r
  {
    r.State() == RowState(Some(DefaultCellIdentifier), true, null, None, None, None)
  }

  /** Appending a visible row appends it to the rendered rows. */
  lemma VisibleAppend(rows: seq<Row>, r: Row)
    requires r.visible
    ensures Keep(rows + [r], RowVisibility(rows + [r])) == Keep(rows, RowVisibility(rows)) + [r]
  {
    KeepAppend(rows, RowVisibility(rows), r, true);
    assert RowVisibility(rows + [r]) == RowVisibility(rows) + [true];
  }
}
