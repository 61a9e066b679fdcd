/**
 * The adapter of the current generation (Pod/Classes/TableManager.swift): it
 * owns the ordered list of sections and answers the list widget's queries in
 * rendered-index space. An out-of-range section query appends a new section;
 * an out-of-range row query hands back a new row that is not kept.
 */
module PodTableManager {
  import opened Toolkit
  import opened Filtering
  import opened PodRow
  import opened PodSection

  /**
   * `after` is `before` with one section appended at the end, in the state a
   * new section starts in: visible, no object, no rows, no closures.
   */
  ghost predicate OneNewSection(before: seq<Section>, after: seq<Section>)
    reads after
  {
    && |after| == |before| + 1
    && after[..|before|] == before
    && after[|before|].State() == InitialSectionState(true, null)
  }

  /**
   * The height reported for the `index`-th rendered row of `section`: the
   * value of that row's height closure, or -1 (the automatic height) when the
   * row has no closure or when `index` is past the rendered rows, in which
   * case a new row is created and it has no closure either.
   */
  ghost function RenderedRowHeight(section: Section, tv: TableView, index: nat): real
    reads section, section.rows
  {
    var rows := section.RowsToRender();
    if index < |rows| && rows[index].heightForRow.Some? then rows[index].heightForRow.value(tv, index)
    else -1.0
  }

  class TableManager {
    var tableView: TableView
    var sections: seq<Section>

    /** Binds the manager to its widget; registering as delegate and data source is widget plumbing. */
    constructor (tableView: TableView)
      ensures this.tableView == tableView && sections == []
    {
      this.tableView := tableView;
      sections := [];
    }

    /** The sections with `visible` set, in their order in `sections`; recomputed on every call. */
    function SectionsToRender(): (r: seq<Section>)
      reads this, sections
      ensures forall k :: 0 <= k < |r| ==> r[k] in sections && r[k].visible
      ensures forall i :: 0 <= i < |sections| && sections[i].visible ==> sections[i] in r
      ensures Selects(r, sections, SectionVisibility(sections))
    {
      var flags := SectionVisibility(sections);
      KeepSelects(sections, flags);
      KeepMembers(sections, flags);
      Keep(sections, flags)
    }

    /**
     * The rendered section at `index`. Past the end, a new visible section is
     * appended to `sections` and returned, so it becomes the last rendered one.
     * A negative index traps in the source.
     */
    method SectionAt(index: int) returns (s: Section)
      requires 0 <= index
      modifies this
      ensures tableView == old(tableView)
      ensures index < |old(SectionsToRender())| ==>
                s == old(SectionsToRender())[index] && sections == old(sections)
      ensures index >= |old(SectionsToRender())| ==>
                && fresh(s) && s.State() == InitialSectionState(true, null)
                && sections == old(sections) + [s]
                && SectionsToRender() == old(SectionsToRender()) + [s]
    {
      var rendered := SectionsToRender();
      if |rendered| > index {
        s := rendered[index];
      } else {
        ghost var flags := SectionVisibility(sections);
        s := new Section();
        KeepAppend(sections, flags, s, true);
        sections := sections + [s];
        assert SectionVisibility(sections) == flags + [true];
      }
    }

    /**
     * The row at a rendered (section, row) position: the section lookup may
     * append a section; the row lookup never appends a row.
     */
    method RowAt(indexPath: IndexPath) returns (r: Row)
      requires 0 <= indexPath.section && 0 <= indexPath.row
      modifies this
      ensures tableView == old(tableView)
      ensures indexPath.section < |old(SectionsToRender())| ==>
                var rows := old(SectionsToRender())[indexPath.section].RowsToRender();
                && sections == old(sections)
                && (indexPath.row < |rows| ==> r == rows[indexPath.row])
                && (indexPath.row >= |rows| ==> fresh(r) && r.State() == InitialRowState(None, true, null))
      ensures indexPath.section >= |old(SectionsToRender())| ==>
                && OneNewSection(old(sections), sections) && fresh(sections[|old(sections)|])
                && fresh(r) && r.State() == InitialRowState(None, true, null)
    {
      var section := SectionAt(indexPath.section);
      r := section.RowAt(indexPath.row);
    }

    /**
     * Appends `section` (a new one when null) and returns it. Unlike adding a
     * row, there is no identity check: `Section.Equal` is not consulted, so the
     * same section can be appended twice.
     */
    method AddSection(section: Section?) returns (s: Section)
      modifies this
      ensures tableView == old(tableView)
      ensures section != null ==> s == section
      ensures section == null ==> fresh(s) && s.State() == InitialSectionState(true, null)
      ensures sections == old(sections) + [s]
    {
      if section == null {
        s := new Section();
      } else {
        s := section;
      }
      sections := sections + [s];
    }

    /** `numberOfSections`: how many sections are rendered. */
    function NumberOfSections(): (n: nat)
      reads this, sections
      ensures n <= |sections|
      ensures n == 0 <==> forall i :: 0 <= i < |sections| ==> !sections[i].visible
    {
      var rendered := SectionsToRender();
      assert |rendered| > 0 ==> exists i :: 0 <= i < |sections| && sections[i] == rendered[0];
      |rendered|
    }

    /** `numberOfRowsInSection`: the rendered rows of the rendered section at `index`; 0 past the end. */
    method NumberOfRows(index: int) returns (n: nat)
      requires 0 <= index
      modifies this
      ensures tableView == old(tableView)
      ensures index < |old(SectionsToRender())| ==> sections == old(sections)
      ensures index >= |old(SectionsToRender())| ==>
                OneNewSection(old(sections), sections) && fresh(sections[|old(sections)|])
      ensures n == if index < |old(SectionsToRender())|
                   then |old(SectionsToRender())[index].RowsToRender()|
                   else 0
    {
      var section := SectionAt(index);
      n := |section.RowsToRender()|;
    }

    /** The header title: the section's title closure when set, otherwise none. */
    method TitleForHeader(tv: TableView, index: int) returns (title: Option<string>)
      requires 0 <= index
      modifies this
      ensures tableView == old(tableView)
      ensures index < |old(SectionsToRender())| ==> sections == old(sections)
      ensures index >= |old(SectionsToRender())| ==>
                OneNewSection(old(sections), sections) && fresh(sections[|old(sections)|])
      ensures index < |old(SectionsToRender())| ==>
                var section := old(SectionsToRender())[index];
                title == if section.titleForHeader.Some?
                         then Some(section.titleForHeader.value(tv, index)) else None
      ensures index >= |old(SectionsToRender())| ==> title == None
    {
      var section := SectionAt(index);
      if section.titleForHeader.Some? {
        title := Some(section.titleForHeader.value(tv, index));
      } else {
        title := None;
      }
    }

    /** The footer title: the section's title closure when set, otherwise none. */
    method TitleForFooter(tv: TableView, index: int) returns (title: Option<string>)
      requires 0 <= index
      modifies this
      ensures tableView == old(tableView)
      ensures index < |old(SectionsToRender())| ==> sections == old(sections)
      ensures index >= |old(SectionsToRender())| ==>
                OneNewSection(old(sections), sections) && fresh(sections[|old(sections)|])
      ensures index < |old(SectionsToRender())| ==>
                var section := old(SectionsToRender())[index];
                title == if section.titleForFooter.Some?
                         then Some(section.titleForFooter.value(tv, index)) else None
      ensures index >= |old(SectionsToRender())| ==> title == None
    {
      var section := SectionAt(index);
      if section.titleForFooter.Some? {
        title := Some(section.titleForFooter.value(tv, index));
      } else {
        title := None;
      }
    }

    /** The header height: the section's height closure when set, otherwise 0. */
    method HeightForHeader(tv: TableView, index: int) returns (height: real)
      requires 0 <= index
      modifies this
      ensures tableView == old(tableView)
      ensures index < |old(SectionsToRender())| ==> sections == old(sections)
      ensures index >= |old(SectionsToRender())| ==>
                OneNewSection(old(sections), sections) && fresh(sections[|old(sections)|])
      ensures index < |old(SectionsToRender())| ==>
                var section := old(SectionsToRender())[index];
                height == if section.heightForHeader.Some?
                          then section.heightForHeader.value(tv, index) else 0.0
      ensures index >= |old(SectionsToRender())| ==> height == 0.0
    {
      var section := SectionAt(index);
      if section.heightForHeader.Some? {
        height := section.heightForHeader.value(tv, index);
      } else {
        height := 0.0;
      }
    }

    /** The header view: the section's view closure when set, otherwise none. */
    method ViewForHeader(tv: TableView, index: int) returns (view: Option<View>)
      requires 0 <= index
      modifies this
      ensures tableView == old(tableView)
      ensures index < |old(SectionsToRender())| ==> sections == old(sections)
      ensures index >= |old(SectionsToRender())| ==>
                OneNewSection(old(sections), sections) && fresh(sections[|old(sections)|])
      ensures index < |old(SectionsToRender())| ==>
                var section := old(SectionsToRender())[index];
                view == if section.viewForHeader.Some?
                        then Some(section.viewForHeader.value(tv, index)) else None
      ensures index >= |old(SectionsToRender())| ==> view == None
    {
      var section := SectionAt(index);
      if section.viewForHeader.Some? {
        view := Some(section.viewForHeader.value(tv, index));
      } else {
        view := None;
      }
    }

    /** The footer height: the section's height closure when set, otherwise 0. */
    method HeightForFooter(tv: TableView, index: int) returns (height: real)
      requires 0 <= index
      modifies this
      ensures tableView == old(tableView)
      ensures index < |old(SectionsToRender())| ==> sections == old(sections)
      ensures index >= |old(SectionsToRender())| ==>
                OneNewSection(old(sections), sections) && fresh(sections[|old(sections)|])
      ensures index < |old(SectionsToRender())| ==>
                var section := old(SectionsToRender())[index];
                height == if section.heightForFooter.Some?
                          then section.heightForFooter.value(tv, index) else 0.0
      ensures index >= |old(SectionsToRender())| ==> height == 0.0
    {
      var section := SectionAt(index);
      if section.heightForFooter.Some? {
        height := section.heightForFooter.value(tv, index);
      } else {
        height := 0.0;
      }
    }

    /** The footer view: the section's view closure when set, otherwise none. */
    method ViewForFooter(tv: TableView, index: int) returns (view: Option<View>)
      requires 0 <= index
      modifies this
      ensures tableView == old(tableView)
      ensures index < |old(SectionsToRender())| ==> sections == old(sections)
      ensures index >= |old(SectionsToRender())| ==>
                OneNewSection(old(sections), sections) && fresh(sections[|old(sections)|])
      ensures index < |old(SectionsToRender())| ==>
                var section := old(SectionsToRender())[index];
                view == if section.viewForFooter.Some?
                        then Some(section.viewForFooter.value(tv, index)) else None
      ensures index >= |old(SectionsToRender())| ==> view == None
    {
      var section := SectionAt(index);
      if section.viewForFooter.Some? {
        view := Some(section.viewForFooter.value(tv, index));
      } else {
        view := None;
      }
    }

    /**
     * The row height: the row's height closure, called with the row index,
     * when set; otherwise -1 (a row the lookup had to make up has none).
     */
    method HeightForRow(tv: TableView, indexPath: IndexPath) returns (height: real)
      requires 0 <= indexPath.section && 0 <= indexPath.row
      modifies this
      ensures tableView == old(tableView)
      ensures indexPath.section < |old(SectionsToRender())| ==> sections == old(sections)
      ensures indexPath.section >= |old(SectionsToRender())| ==>
                OneNewSection(old(sections), sections) && fresh(sections[|old(sections)|])
      ensures indexPath.section < |old(SectionsToRender())| ==>
                height == old(RenderedRowHeight(SectionsToRender()[indexPath.section], tv, indexPath.row))
      ensures indexPath.section >= |old(SectionsToRender())| ==> height == -1.0
    {
      var row := RowAt(indexPath);
      if row.heightForRow.Some? {
        height := row.heightForRow.value(tv, indexPath.row);
      } else {
        height := -1.0;
      }
    }
  }

  /**
   * Two sections, the first hidden and the second shown with rows [X, Y]:
   * one section is rendered, and the row at rendered position (0, 0) is X.
   */
  lemma TwoSectionScenario(tm: TableManager, first: Section, second: Section, x: Row, y: Row)
    requires tm.sections == [first, second] && !first.visible && second.visible
    requires second.rows == [x, y] && x.visible && y.visible
    ensures tm.NumberOfSections() == 1
    ensures tm.SectionsToRender() == [second]
    ensures second.RowsToRender()[0] == x
  {
    assert SectionVisibility(tm.sections) == [false, true];
    KeepAppend([], [], first, false);
    KeepAppend([first], [false], second, true);
    assert [first] + [second] == [first, second] && [false] + [true] == [false, true];
    assert [] + [first] == [first] && [] + [false] == [false];
    assert RowVisibility(second.rows) == [true, true];
    KeepAppend([], [], x, true);
    KeepAppend([x], [true], y, true);
    assert [x] + [y] == [x, y] && [true] + [true] == [true, true];
    assert [] + [x] == [x] && [] + [true] == [true];
  }
}
