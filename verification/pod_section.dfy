/**
 * The section of the current generation (Pod/Classes/Section.swift): an
 * ordered list of rows, a visibility flag, and six header/footer closure
 * slots. Its chainable setters update the section in place and return it.
 */
module PodSection {
  import opened Toolkit
  import opened Filtering
  import opened PodRow

  type HeightForHeader = (TableView, int) -> real
  type ViewForHeader = (TableView, int) -> View
  type TitleForHeader = (TableView, int) -> string
  type HeightForFooter = (TableView, int) -> real
  type ViewForFooter = (TableView, int) -> View
  type TitleForFooter = (TableView, int) -> string

  /** Every field of a section except its identity, as one value. */
  datatype SectionState = SectionState(
    visible: bool,
    obj: object?,
    indexTitle: Option<string>,
    rows: seq<Row>,
    heightForHeader: Option<HeightForHeader>,
    titleForHeader: Option<TitleForHeader>,
    viewForHeader: Option<ViewForHeader>,
    heightForFooter: Option<HeightForFooter>,
    titleForFooter: Option<TitleForFooter>,
    viewForFooter: Option<ViewForFooter>)

  /** The state `init(visible:object:)` gives a new section: no rows, no closures. */
  ghost function InitialSectionState(visible: bool, obj: object?): SectionState
  {
    SectionState(visible, obj, None, [], None, None, None, None, None, None)
  }

  class Section {
    /** Identity used by `==`; assigned once, at creation. */
    const id: Token
    var visible: bool
    /** The consumer's associated object (`object` in the source). */
    var obj: object?
    var indexTitle: Option<string>
    var rows: seq<Row>
    var heightForHeader: Option<HeightForHeader>
    var titleForHeader: Option<TitleForHeader>
    var viewForHeader: Option<ViewForHeader>
    var heightForFooter: Option<HeightForFooter>
    var titleForFooter: Option<TitleForFooter>
    var viewForFooter: Option<ViewForFooter>

    ghost function State(): SectionState
      reads this
    {
      SectionState(visible, obj, indexTitle, rows, heightForHeader, titleForHeader, viewForHeader,
                   heightForFooter, titleForFooter, viewForFooter)
    }

    constructor (visible: bool := true, obj: object? := null)
      ensures fresh(id)
      ensures State() == InitialSectionState(visible, obj)
    {
      id := new Token();
      this.visible := visible;
      this.obj := obj;
      indexTitle := None;
      rows := [];
      heightForHeader, titleForHeader, viewForHeader := None, None, None;
      heightForFooter, titleForFooter, viewForFooter := None, None, None;
    }

    /**
     * The rows with `visible` set, in their order in `rows`; computed from the
     * rows' current flags on every call.
     */
    function RowsToRender(): (r: seq<Row>)
      reads this, rows
      ensures forall k :: 0 <= k < |r| ==> r[k] in rows && r[k].visible
      ensures forall i :: 0 <= i < |rows| && rows[i].visible ==> rows[i] in r
      ensures Selects(r, rows, RowVisibility(rows))
    {
      var flags := RowVisibility(rows);
      KeepSelects(rows, flags);
      KeepMembers(rows, flags);
      Keep(rows, flags)
    }

    /** The list a lookup searches: every row, or only the rendered ones. */
    function Candidates(includeAll: bool): seq<Row>
      reads this, rows
    {
      if includeAll then rows else RowsToRender()
    }

    /** The source's `==`: sections are the same section exactly when they share an identity. */
    static predicate Equal(lhs: Section, rhs: Section)
    {
      lhs.id == rhs.id
    }

    method SetVisible(visible: bool) returns (s: Section)
      modifies this
      ensures s == this
      ensures State() == old(State()).(visible := visible)
    {
      this.visible := visible;
      s := this;
    }

    method SetObject(obj: object) returns (s: Section)
      modifies this
      ensures s == this
      ensures State() == old(State()).(obj := obj)
    {
      this.obj := obj;
      s := this;
    }

    method SetIndexTitle(title: string) returns (s: Section)
      modifies this
      ensures s == this
      ensures State() == old(State()).(indexTitle := Some(title))
    {
      indexTitle := Some(title);
      s := this;
    }

    /**
     * The row at `index` of the searched list. Past the end it hands back a
     * new default row WITHOUT adding it to the section. A negative index is
     * out of the source's reach: it traps on the array subscript.
     */
    method RowAt(index: int, includeAll: bool := false) returns (r: Row)
      requires 0 <= index
      ensures index < |Candidates(includeAll)| ==> r == Candidates(includeAll)[index]
      ensures index >= |Candidates(includeAll)| ==>
                fresh(r) && r.State() == InitialRowState(None, true, null)
      ensures unchanged(this)
    {
      var objects := if includeAll then rows else RowsToRender();
      if |objects| > index {
        r := objects[index];
      } else {
        r := new Row();
      }
    }

    /** The position of the first row `==` to `row` in the searched list, if any. */
    function IndexOf(row: Row, includeAll: bool := false): (i: Option<nat>)
      reads this, rows
      ensures i.Some? ==> i.value < |Candidates(includeAll)|
      ensures i.Some? ==> Row.Equal(Candidates(includeAll)[i.value], row)
      ensures i.Some? ==> forall j :: 0 <= j < i.value ==> !Row.Equal(Candidates(includeAll)[j], row)
      ensures i.None? <==> forall j :: 0 <= j < |Candidates(includeAll)| ==> !Row.Equal(Candidates(includeAll)[j], row)
    {
      FirstIndexOf(if includeAll then rows else RowsToRender(), row)
    }

    /**
     * Adds `row` (a new default row when it is null) unless a row with the same
     * identity is already in the section, and returns the row it was given or made.
     */
    method AddRow(row: Row?) returns (r: Row)
      modifies this
      ensures row != null ==> r == row
      ensures row == null ==> fresh(r) && r.State() == InitialRowState(None, true, null)
      ensures row == null ==> rows == old(rows) + [r]
      ensures (exists x :: x in old(rows) && Row.Equal(x, r)) ==> rows == old(rows)
      ensures (forall x :: x in old(rows) ==> !Row.Equal(x, r)) ==> rows == old(rows) + [r]
      ensures IndexOf(r, true).Some?
      ensures State() == old(State()).(rows := rows)
    {
      if row == null {
        r := new Row();
      } else {
        r := row;
      }
      if IndexOf(r, true) == None {
        rows := rows + [r];
        assert rows[|rows| - 1] == r;
      }
    }

    /** Makes a row with the given cell identifier and adds it; being new, it is always appended. */
    method AddRowWithIdentifier(identifier: string) returns (r: Row)
      modifies this
      ensures fresh(r) && r.State() == InitialRowState(Some(identifier), true, null)
      ensures State() == old(State()).(rows := old(rows) + [r])
    {
      var row := new Row(Some(identifier));
      r := AddRow(row);
    }

    /** Removes every row; nothing else about the section changes. */
    method ClearRows() returns (s: Section)
      modifies this
      ensures s == this
      ensures State() == old(State()).(rows := [])
      ensures RowsToRender() == []
    {
      rows := [];
      s := this;
    }

    method SetHeaderDynamicText(dynamicText: TitleForHeader) returns (s: Section)
      modifies this
      ensures s == this
      ensures State() == old(State()).(titleForHeader := Some(dynamicText))
    {
      titleForHeader := Some(dynamicText);
      s := this;
    }

    /** Installs, in the dynamic title slot, a closure that always yields `staticText`. */
    method SetHeaderStaticText(staticText: string) returns (s: Section)
      modifies this
      ensures s == this
      ensures titleForHeader.Some?
      ensures forall tableView, index :: titleForHeader.value(tableView, index) == staticText
      ensures State() == old(State()).(titleForHeader := titleForHeader)
    {
      var _ := SetHeaderDynamicText((tableView, index) => staticText);
      s := this;
    }

    method SetHeaderDynamicView(dynamicView: ViewForHeader) returns (s: Section)
      modifies this
      ensures s == this
      ensures State() == old(State()).(viewForHeader := Some(dynamicView))
    {
      viewForHeader := Some(dynamicView);
      s := this;
    }

    /** Installs, in the dynamic view slot, a closure that always yields `staticView`. */
    method SetHeaderStaticView(staticView: View) returns (s: Section)
      modifies this
      ensures s == this
      ensures viewForHeader.Some?
      ensures forall tableView, index :: viewForHeader.value(tableView, index) == staticView
      ensures State() == old(State()).(viewForHeader := viewForHeader)
    {
      var _ := SetHeaderDynamicView((tableView, index) => staticView);
      s := this;
    }

    method SetHeaderDynamicHeight(dynamicHeight: HeightForHeader) returns (s: Section)
      modifies this
      ensures s == this
      ensures State() == old(State()).(heightForHeader := Some(dynamicHeight))
    {
      heightForHeader := Some(dynamicHeight);
      s := this;
    }

    /** Installs, in the dynamic height slot, a closure that always yields `staticHeight`. */
    method SetHeaderStaticHeight(staticHeight: real) returns (s: Section)
      modifies this
      ensures s == this
      ensures heightForHeader.Some?
      ensures forall tableView, index :: heightForHeader.value(tableView, index) == staticHeight
      ensures State() == old(State()).(heightForHeader := heightForHeader)
    {
      var _ := SetHeaderDynamicHeight((tableView, index) => staticHeight);
      s := this;
    }

    method SetFooterDynamicText(dynamicText: TitleForFooter) returns (s: Section)
      modifies this
      ensures s == this
      ensures State() == old(State()).(titleForFooter := Some(dynamicText))
    {
      titleForFooter := Some(dynamicText);
      s := this;
    }

    /** Installs, in the dynamic title slot, a closure that always yields `staticText`. */
    method SetFooterStaticText(staticText: string) returns (s: Section)
      modifies this
      ensures s == this
      ensures titleForFooter.Some?
      ensures forall tableView, index :: titleForFooter.value(tableView, index) == staticText
      ensures State() == old(State()).(titleForFooter := titleForFooter)
    {
      var _ := SetFooterDynamicText((tableView, index) => staticText);
      s := this;
    }

    method SetFooterDynamicView(dynamicView: ViewForFooter) returns (s: Section)
      modifies this
      ensures s == this
      ensures State() == old(State()).(viewForFooter := Some(dynamicView))
    {
      viewForFooter := Some(dynamicView);
      s := this;
    }

    /** Installs, in the dynamic view slot, a closure that always yields `staticView`. */
    method SetFooterStaticView(staticView: View) returns (s: Section)
      modifies this
      ensures s == this
      ensures viewForFooter.Some?
      ensures forall tableView, index :: viewForFooter.value(tableView, index) == staticView
      ensures State() == old(State()).(viewForFooter := viewForFooter)
    {
      var _ := SetFooterDynamicView((tableView, index) => staticView);
      s := this;
    }

    method SetFooterDynamicHeight(dynamicHeight: HeightForFooter) returns (s: Section)
      modifies this
      ensures s == this
      ensures State() == old(State()).(heightForFooter := Some(dynamicHeight))
    {
      heightForFooter := Some(dynamicHeight);
      s := this;
    }

    /** Installs, in the dynamic height slot, a closure that always yields `staticHeight`. */
    method SetFooterStaticHeight(staticHeight: real) returns (s: Section)
      modifies this
      ensures s == this
      ensures heightForFooter.Some?
      ensures forall tableView, index :: heightForFooter.value(tableView, index) == staticHeight
      ensures State() == old(State()).(heightForFooter := heightForFooter)
    {
      var _ := SetFooterDynamicHeight((tableView, index) => staticHeight);
      s := this;
    }
  }

  /** The visibility of each section of `sections`, position by position. */
  function SectionVisibility(sections: seq<Section>): (flags: seq<bool>)
    reads sections
    ensures |flags| == |sections|
    ensures forall i :: 0 <= i < |sections| ==> flags[i] == sections[i].visible
  {
    seq(|sections|, i requires 0 <= i < |sections| reads sections => sections[i].visible)
  }

  /** Adding a row a second time changes nothing: the second `addRow` finds it and leaves the section alone. */
  method AddRowTwice(s: Section, row: Row)
    modifies s
    ensures s.State() == old(s.State()).(rows := if exists x :: x in old(s.rows) && Row.Equal(x, row)
                                                 then old(s.rows) else old(s.rows) + [row])
  {
    var r1 := s.AddRow(row);
    ghost var once := s.rows;
    ghost var i := s.IndexOf(row, true).value;
    assert once[i] in once && Row.Equal(once[i], row);
    var r2 := s.AddRow(row);
  }

  /** Section `==` is an equivalence decided by identity alone, never by a mutable field. */
  lemma EqualIsIdentity(a: Section, b: Section, c: Section)
    ensures Section.Equal(a, a)
    ensures Section.Equal(a, b) <==> Section.Equal(b, a)
    ensures Section.Equal(a, b) && Section.Equal(b, c) ==> Section.Equal(a, c)
    ensures Section.Equal(a, b) <==> a.id == b.id
  {
  }

  /** Rows [A (shown), B (hidden), C (shown)] render as [A, C]; hiding B leaves it in `rows`. */
  lemma RenderedScenario(s: Section, a: Row, b: Row, c: Row)
    requires s.rows == [a, b, c] && a.visible && !b.visible && c.visible
    ensures s.RowsToRender() == [a, c]
  {
    assert RowVisibility(s.rows) == [true, false, true];
    KeepShownHiddenShown(a, b, c);
  }

  /** Filtering three rows flagged shown, hidden, shown keeps the first and the last. */
  lemma KeepShownHiddenShown(a: Row, b: Row, c: Row)
    ensures Keep([a, b, c], [true, false, true]) == [a, c]
  {
    KeepAppend([], [], a, true);
    KeepAppend([a], [true], b, false);
    KeepAppend([a, b], [true, false], c, true);
    assert [a, b] + [c] == [a, b, c] && [true, false] + [true] == [true, false, true];
    assert [a] + [b] == [a, b] && [true] + [false] == [true, false];
    assert [] + [a] == [a] && [] + [true] == [true];
  }
}
