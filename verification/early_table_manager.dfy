/**
 * The first generation (TableManager.swift), where the manager, its sections
 * and its rows live in one file. Both lookups are forgiving: reading past the
 * rendered sections appends a new section, and reading past a section's
 * rendered rows appends a new row to that section. Header content has a
 * dynamic closure and a separate static value, the closure taking precedence.
 */
module EarlyTableManager {
  import opened Toolkit
  import opened Filtering

  /** The reuse identifier registered for, and given to, made-up rows. */
  const DefaultIdentifier: string := "TableManager_Default_Cell"

  type HeightForHeaderInSection = (TableView, int) -> real
  type TitleForHeaderInSection = (TableView, int) -> string
  type ViewForHeaderInSection = (TableView, int) -> View

  /** Every mutable field of a row, as one value (the identifier is immutable). */
  datatype RowState = RowState(
    visible: bool,
    obj: object?,
    configureCell: Option<Closure>,
    cellForRowAtIndexPath: Option<Closure>,
    didSelectRowAtIndexPath: Option<Closure>)

  class Row {
    const identifier: string
    var visible: bool
    /** The consumer's associated object (`object` in the source). */
    var obj: object?
    var configureCell: Option<Closure>
    var cellForRowAtIndexPath: Option<Closure>
    var didSelectRowAtIndexPath: Option<Closure>

    ghost function State(): RowState
      reads this
    {
      RowState(visible, obj, configureCell, cellForRowAtIndexPath, didSelectRowAtIndexPath)
    }

    /** `init(identifier:)`: a visible row with no object and no closures. */
    constructor (identifier: string)
      ensures this.identifier == identifier
      ensures State() == RowState(true, null, None, None, None)
    {
      this.identifier := identifier;
      visible := true;
      obj := null;
      configureCell, cellForRowAtIndexPath, didSelectRowAtIndexPath := None, None, None;
    }

    /** The convenience `init(identifier:object:configureCell:)`. */
    constructor WithObject(identifier: string, obj: object?, configureCell: Option<Closure>)
      ensures this.identifier == identifier
      ensures State() == RowState(true, obj, configureCell, None, None)
    {
      this.identifier := identifier;
      visible := true;
      this.obj := obj;
      this.configureCell := configureCell;
      cellForRowAtIndexPath, didSelectRowAtIndexPath := None, None;
    }
  }

  /** The visibility of each row of `rows`, position by position. */
  function RowVisibility(rows: seq<Row>): (flags: seq<bool>)
    reads rows
    ensures |flags| == |rows|
    ensures forall i :: 0 <= i < |rows| ==> flags[i] == rows[i].visible
  {
    seq(|rows|, i requires 0 <= i < |rows| reads rows => rows[i].visible)
  }

  /** Appending a visible row appends it to the rendered rows. */
  lemma RowAppend(rows: seq<Row>, r: Row)
    requires r.visible
    ensures Keep(rows + [r], RowVisibility(rows + [r])) == Keep(rows, RowVisibility(rows)) + [r]
  {
    KeepAppend(rows, RowVisibility(rows), r, true);
    assert RowVisibility(rows + [r]) == RowVisibility(rows) + [true];
  }

  /** Every field of a section, as one value. */
  datatype SectionState = SectionState(
    visible: bool,
    rows: seq<Row>,
    heightForStaticHeader: real,
    heightForHeaderInSection: Option<HeightForHeaderInSection>,
    titleForStaticHeader: Option<string>,
    titleForHeaderInSection: Option<TitleForHeaderInSection>,
    viewForStaticHeader: Option<View>,
    viewForHeaderInSection: Option<ViewForHeaderInSection>)

  /** The state of a section made by the default initialiser. */
  ghost function InitialSectionState(): SectionState
  {
    SectionState(true, [], 0.0, None, None, None, None, None)
  }

  class Section {
    var visible: bool
    var rows: seq<Row>
    var heightForStaticHeader: real
    var heightForHeaderInSection: Option<HeightForHeaderInSection>
    var titleForStaticHeader: Option<string>
    var titleForHeaderInSection: Option<TitleForHeaderInSection>
    var viewForStaticHeader: Option<View>
    var viewForHeaderInSection: Option<ViewForHeaderInSection>

    ghost function State(): SectionState
      reads this
    {
      SectionState(visible, rows, heightForStaticHeader, heightForHeaderInSection,
                   titleForStaticHeader, titleForHeaderInSection,
                   viewForStaticHeader, viewForHeaderInSection)
    }

    constructor ()
      ensures State() == InitialSectionState()
    {
      visible := true;
      rows := [];
      heightForStaticHeader := 0.0;
      heightForHeaderInSection := None;
      titleForStaticHeader, titleForHeaderInSection := None, None;
      viewForStaticHeader, viewForHeaderInSection := None, None;
    }

    /** The rows with `visible` set, in their order in `rows`; recomputed on every call. */
    function VisibleRows(): (r: seq<Row>)
      reads this, rows
      ensures forall k :: 0 <= k < |r| ==> r[k] in rows && r[k].visible
      ensures forall i :: 0 <= i < |rows| && rows[i].visible ==> rows[i] in r
      ensures Selects(r, rows, RowVisibility(rows))
    {
      var flags := RowVisibility(rows);
      KeepSelects(rows, flags);
      KeepMembers(rows, flags);
      Keep(rows, flags)
    }

    /**
     * The rendered row at `index`. Past the end, a new visible row with the
     * default identifier is appended to `rows` and returned, so `rows` grows
     * by exactly one (and, by `RowAppend`, so do the rendered rows). A
     * negative index traps in the source.
     */
    method RowForIndex(index: int) returns (r: Row)
      requires 0 <= index
      modifies this
      ensures index < |old(VisibleRows())| ==> r == old(VisibleRows())[index] && rows == old(rows)
      ensures index >= |old(VisibleRows())| ==>
                && fresh(r) && IsPlaceholder(r)
                && rows == old(rows) + [r]
      ensures State() == old(State()).(rows := rows)
    {
      var visibleRows := VisibleRows();
      if |visibleRows| > index {
        r := visibleRows[index];
      } else {
        r := new Row.WithObject(DefaultIdentifier, null, None);
        rows := rows + [r];
      }
    }
  }

  /** A row as an out-of-range lookup makes it: default identifier, visible, nothing else set. */
  ghost predicate IsPlaceholder(r: Row)
    reads r
  {
    r.identifier == DefaultIdentifier && r.State() == RowState(true, null, None, None, None)
  }

  /**
   * `after` is `before` with one section appended at the end, in the state a
   * new section starts in.
   */
  ghost predicate OneNewSection(before: seq<Section>, after: seq<Section>)
    reads after
  {
    && |after| == |before| + 1
    && after[..|before|] == before
    && after[|before|].State() == InitialSectionState()
  }

  /** The visibility of each section of `sections`, position by position. */
  function SectionVisibility(sections: seq<Section>): (flags: seq<bool>)
    reads sections
    ensures |flags| == |sections|
    ensures forall i :: 0 <= i < |sections| ==> flags[i] == sections[i].visible
  {
    seq(|sections|, i requires 0 <= i < |sections| reads sections => sections[i].visible)
  }

  class TableManager {
    var tableView: TableView
    var sections: seq<Section>

    /** Binds the manager to its widget; registering as delegate and data source is widget plumbing. */
    constructor (tableView: TableView)
      ensures this.tableView == tableView && sections == []
    {
      this.tableView := tableView;
      sections := [];
    }

    /** The sections with `visible` set, in their order in `sections`; recomputed on every call. */
    function VisibleSections(): (r: seq<Section>)
      reads this, sections
      ensures forall k :: 0 <= k < |r| ==> r[k] in sections && r[k].visible
      ensures forall i :: 0 <= i < |sections| && sections[i].visible ==> sections[i] in r
      ensures Selects(r, sections, SectionVisibility(sections))
    {
      var flags := SectionVisibility(sections);
      KeepSelects(sections, flags);
      KeepMembers(sections, flags);
      Keep(sections, flags)
    }

    /**
     * The rendered section at `index`. Past the end, a new visible section is
     * appended to `sections` and returned. A negative index traps in the source.
     */
    method SectionForIndex(index: int) returns (s: Section)
      requires 0 <= index
      modifies this
      ensures tableView == old(tableView)
      ensures index < |old(VisibleSections())| ==>
                s == old(VisibleSections())[index] && sections == old(sections)
      ensures index >= |old(VisibleSections())| ==>
                && fresh(s) && s.State() == InitialSectionState()
                && sections == old(sections) + [s]
                && VisibleSections() == old(VisibleSections()) + [s]
    {
      var visibleSections := VisibleSections();
      if |visibleSections| > index {
        s := visibleSections[index];
      } else {
        ghost var flags := SectionVisibility(sections);
        s := new Section();
        KeepAppend(sections, flags, s, true);
        sections := sections + [s];
        assert SectionVisibility(sections) == flags + [true];
      }
    }

    /**
     * The row at a rendered (section, row) position: the section lookup may
     * append a section, then the row lookup may append a row to the section
     * it found. `section` names that section; no other section changes.
     */
    method RowForIndexPath(indexPath: IndexPath) returns (r: Row, ghost section: Section)
      requires 0 <= indexPath.section && 0 <= indexPath.row
      modifies this, sections
      ensures tableView == old(tableView)
      ensures indexPath.section < |old(VisibleSections())| ==>
                && section == old(VisibleSections())[indexPath.section]
                && sections == old(sections)
                && (var rendered := old(section.VisibleRows());
                    && (indexPath.row < |rendered| ==> r == rendered[indexPath.row] && section.rows == old(section.rows))
                    && (indexPath.row >= |rendered| ==> fresh(r) && section.rows == old(section.rows) + [r]))
                && section.State() == old(section.State()).(rows := section.rows)
      ensures indexPath.section >= |old(VisibleSections())| ==>
                && fresh(section) && fresh(r)
                && sections == old(sections) + [section]
                && section.State() == InitialSectionState().(rows := [r])
      ensures fresh(r) ==> IsPlaceholder(r)
      ensures forall s :: s in old(sections) && s != section ==> s.State() == old(s.State())
    {
      ghost var rendered := VisibleSections();
      var s := SectionForIndex(indexPath.section);
      if indexPath.section < |rendered| {
        assert s in old(sections);
        assert s.VisibleRows() == old(s.VisibleRows());
      }
      r := s.RowForIndex(indexPath.row);
      section := s;
    }

    /** `numberOfSections`: how many sections are rendered. */
    function NumberOfSections(): (n: nat)
      reads this, sections
      ensures n <= |sections|
      ensures n == 0 <==> forall i :: 0 <= i < |sections| ==> !sections[i].visible
    {
      var rendered := VisibleSections();
      assert |rendered| > 0 ==> exists i :: 0 <= i < |sections| && sections[i] == rendered[0];
      |rendered|
    }

    /** `numberOfRowsInSection`: the rendered rows of the rendered section at `index`; 0 past the end. */
    method NumberOfRows(index: int) returns (n: nat)
      requires 0 <= index
      modifies this
      ensures tableView == old(tableView)
      ensures index < |old(VisibleSections())| ==> sections == old(sections)
      ensures index >= |old(VisibleSections())| ==>
                OneNewSection(old(sections), sections) && fresh(sections[|old(sections)|])
      ensures n == if index < |old(VisibleSections())|
                   then |old(VisibleSections())[index].VisibleRows()|
                   else 0
    {
      var section := SectionForIndex(index);
      n := |section.VisibleRows()|;
    }

    /** The header height: the dynamic closure when set, otherwise the static height (0 unless set). */
    method HeightForHeader(tv: TableView, index: int) returns (height: real)
      requires 0 <= index
      modifies this
      ensures tableView == old(tableView)
      ensures index < |old(VisibleSections())| ==> sections == old(sections)
      ensures index >= |old(VisibleSections())| ==>
                OneNewSection(old(sections), sections) && fresh(sections[|old(sections)|])
      ensures index < |old(VisibleSections())| ==>
                var section := old(VisibleSections())[index];
                height == if section.heightForHeaderInSection.Some?
                          then section.heightForHeaderInSection.value(tv, index)
                          else section.heightForStaticHeader
      ensures index >= |old(VisibleSections())| ==> height == 0.0
    {
      var section := SectionForIndex(index);
      if section.heightForHeaderInSection.Some? {
        height := section.heightForHeaderInSection.value(tv, index);
      } else {
        height := section.heightForStaticHeader;
      }
    }

    /** The header title: the dynamic closure, else the static title, else none. */
    method TitleForHeader(tv: TableView, index: int) returns (title: Option<string>)
      requires 0 <= index
      modifies this
      ensures tableView == old(tableView)
      ensures index < |old(VisibleSections())| ==> sections == old(sections)
      ensures index >= |old(VisibleSections())| ==>
                OneNewSection(old(sections), sections) && fresh(sections[|old(sections)|])
      ensures index < |old(VisibleSections())| ==>
                var section := old(VisibleSections())[index];
                title == if section.titleForHeaderInSection.Some?
                         then Some(section.titleForHeaderInSection.value(tv, index))
                         else section.titleForStaticHeader
      ensures index >= |old(VisibleSections())| ==> title == None
    {
      var section := SectionForIndex(index);
      if section.titleForHeaderInSection.Some? {
        title := Some(section.titleForHeaderInSection.value(tv, index));
      } else if section.titleForStaticHeader.Some? {
        title := Some(section.titleForStaticHeader.value);
      } else {
        title := None;
      }
    }

    /** The header view: the dynamic closure, else the static view, else none. */
    method ViewForHeader(tv: TableView, index: int) returns (view: Option<View>)
      requires 0 <= index
      modifies this
      ensures tableView == old(tableView)
      ensures index < |old(VisibleSections())| ==> sections == old(sections)
      ensures index >= |old(VisibleSections())| ==>
                OneNewSection(old(sections), sections) && fresh(sections[|old(sections)|])
      ensures index < |old(VisibleSections())| ==>
                var section := old(VisibleSections())[index];
                view == if section.viewForHeaderInSection.Some?
                        then Some(section.viewForHeaderInSection.value(tv, index))
                        else section.viewForStaticHeader
      ensures index >= |old(VisibleSections())| ==> view == None
    {
      var section := SectionForIndex(index);
      if section.viewForHeaderInSection.Some? {
        view := Some(section.viewForHeaderInSection.value(tv, index));
      } else if section.viewForStaticHeader.Some? {
        view := Some(section.viewForStaticHeader.value);
      } else {
        view := None;
      }
    }
  }
}
