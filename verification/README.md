# TableManager — a verified model of the table data model

TableManager is a Swift wrapper around the iOS list widget (`UITableView`).
The consumer describes a table as an ordered list of sections. Each section
holds an ordered list of rows. The manager answers the widget's data-source
and delegate queries from that list.

This project models the in-memory part of that library in Dafny:

- **Visibility filtering.** Each query works on the rendered view: the list
  filtered on `visible`, in order, recomputed on every read.
- **Index lookups** into that view, including what happens past the end.
- **Identity.** Rows and sections compare by a hidden `id`.
- **Edit-capability flags** of a row.
- **Header, footer and height slots**, and the manager's fallbacks when a
  slot is empty.

The repository holds three generations of these classes. They differ in ways
that matter, so each is modelled as written, in its own module(s):

| generation | source | modules |
|---|---|---|
| first | `TableManager.swift` (manager, section and row in one file) | `EarlyTableManager` |
| second | `Section.swift`, `TableManager/TableManager/Row.swift` | `MidSection`, `MidRow` |
| current | `Pod/Classes/{Row,Section,TableManager}.swift` | `PodRow`, `PodSection`, `PodTableManager` |

Two modules are shared by all generations:

- `Toolkit`: `Option`, an identity `Token`, and opaque handles for the widget,
  views and side-effect closures.
- `Filtering`: the order-preserving filter `Keep`, the increasing list of
  flagged positions `Positions`, and the predicate `Selects`. `Selects` says a
  list is exactly the flagged elements, in order. Each generation's rendered
  view (`RowsToRender`, `SectionsToRender`, `VisibleRows`, `VisibleSections`)
  is `Keep` over the visibility flags. Its contract states both directions of
  membership and the `Selects` relation.

Classes whose fields the source updates in place are Dafny classes. Every row
and section class has a ghost `State()` snapshot of its mutable fields. Each of
its setters states its whole new state as the old one with only the fields it
assigns replaced: one field for most setters, two for `Row.SetCanDelete` (the
editing style and the delete-confirmation title). So "changes nothing else" is
part of every contract. The manager classes have no snapshot: their methods
state the widget handle and the `sections` list directly, and say what
`sections` becomes whenever a lookup may append to it.

An out-of-range lookup behaves differently in each generation:

- current `Section.row(atIndex:)` returns a new row and does **not** keep it;
- second-generation `Section.row(atIndex:)` and first-generation
  `Section.rowForIndex` append the new row to `rows`;
- the section lookup appends a new section in both the first and the current
  generation.

Swift traps on a negative index (`count > index` holds, then the subscript
fails), so every index lookup requires `0 <= index`.

## Model

| member | source | states |
|---|---|---|
| Filtering.Keep | Pod/Classes/Section.swift:28-32 | the filtered list is never longer than the list it filters |
| Filtering.Positions | Pod/Classes/Section.swift:28-32 | the flagged indices, strictly increasing, each in range and flagged, and every flagged index among them |
| Filtering.KeepSelects | Pod/Classes/Section.swift:28-32 | the filter yields, position by position, the elements at the flagged indices in order (order preserved, nothing added or dropped) |
| Filtering.KeepMembers | Pod/Classes/TableManager.swift:22-26 | an element is in the filtered list iff it sits at some flagged index |
| Filtering.KeepAppend | Pod/Classes/TableManager.swift:60-64 | appending one element extends the filtered list by it exactly when its flag is set |
| PodRow.Row.constructor | Pod/Classes/Row.swift:57-62 | stores identifier, visible and object (defaults none, true, none); style none, not movable, no closures; a fresh identity; `canEdit` is false |
| PodRow.Row.SetIdentifier | Pod/Classes/Row.swift:66-69 | only `identifier` changes |
| PodRow.Row.SetObject | Pod/Classes/Row.swift:71-74 | only `object` changes |
| PodRow.Row.SetCanMove | Pod/Classes/Row.swift:76-79 | only `movable` changes; afterwards `canMove` is the argument and `canDelete` is as before |
| PodRow.Row.SetCanDelete | Pod/Classes/Row.swift:81-85 | style becomes delete or none (so an insert style is cleared), the confirmation title is stored, nothing else changes; `canDelete` is the argument and `canMove` is unchanged |
| PodRow.Row.SetCanInsert | Pod/Classes/Row.swift:87-90 | style becomes insert or none; `canInsert` is the argument and `canDelete` is false |
| PodRow.Row.SetConfiguration | Pod/Classes/Row.swift:92-95 | only the configuration slot changes, to the given closure |
| PodRow.Row.SetDidSelect | Pod/Classes/Row.swift:97-100 | only the selection slot changes, to the given closure |
| PodRow.Row.SetDynamicHeight | Pod/Classes/Row.swift:102-105 | only the height slot changes, to the given closure |
| PodRow.Row.SetStaticHeight | Pod/Classes/Row.swift:107-112 | the height slot holds a closure returning the height for every argument; nothing else changes |
| PodRow.FirstIndexOf | Pod/Classes/Section.swift:96-98 | the first position holding a row `==` to the given one (same identity), or none exactly when no position does |
| PodRow.CanEditIffCapability | Pod/Classes/Row.swift:26-43 | `canEdit` iff movable or any editing style; `canDelete` iff the style is delete; delete and insert never hold together |
| PodRow.EqualIsIdentity | Pod/Classes/Row.swift:119-121 | `==` is reflexive, symmetric and transitive, and holds exactly when the ids are equal |
| PodSection.Section.constructor | Pod/Classes/Section.swift:52-56 | stores visible and object (defaults true, none); no rows, no index title, no closures; a fresh identity |
| PodSection.Section.RowsToRender | Pod/Classes/Section.swift:27-32 | exactly the visible rows of `rows`, each visible one included, in their order |
| PodSection.Section.SetVisible | Pod/Classes/Section.swift:60-65 | only `visible` changes; returns the section itself |
| PodSection.Section.SetObject | Pod/Classes/Section.swift:67-72 | only `object` changes; returns the section itself |
| PodSection.Section.SetIndexTitle | Pod/Classes/Section.swift:74-79 | only `indexTitle` changes; returns the section itself |
| PodSection.Section.RowAt | Pod/Classes/Section.swift:81-90 | in range: the row at that position of all rows or of the rendered rows; past the end: a fresh default row, with the section unchanged (no append) |
| PodSection.Section.IndexOf | Pod/Classes/Section.swift:92-99 | the first position of a row with the same identity in all rows or in the rendered rows; none exactly when there is no such row |
| PodSection.Section.AddRow | Pod/Classes/Section.swift:101-109 | returns the given row or a fresh default one; a fresh row is always appended; a given row is appended only when no row with its identity is present; afterwards `IndexOf(result, includeAll: true)` is found; nothing else changes |
| PodSection.Section.AddRowWithIdentifier | Pod/Classes/Section.swift:111-115 | a fresh row with the identifier is always appended and returned |
| PodSection.Section.ClearRows | Pod/Classes/Section.swift:117-122 | `rows` becomes empty and nothing else changes; nothing is rendered |
| PodSection.Section.SetHeaderDynamicText | Pod/Classes/Section.swift:126-131 | only the header title slot changes, to the given closure |
| PodSection.Section.SetHeaderStaticText | Pod/Classes/Section.swift:133-140 | the header title slot returns the text for every argument; nothing else changes |
| PodSection.Section.SetHeaderDynamicView | Pod/Classes/Section.swift:142-147 | only the header view slot changes, to the given closure |
| PodSection.Section.SetHeaderStaticView | Pod/Classes/Section.swift:149-156 | the header view slot returns the view for every argument; nothing else changes |
| PodSection.Section.SetHeaderDynamicHeight | Pod/Classes/Section.swift:158-163 | only the header height slot changes, to the given closure |
| PodSection.Section.SetHeaderStaticHeight | Pod/Classes/Section.swift:165-172 | the header height slot returns the height for every argument; nothing else changes |
| PodSection.Section.SetFooterDynamicText | Pod/Classes/Section.swift:180-185 | only the footer title slot changes, to the given closure |
| PodSection.Section.SetFooterStaticText | Pod/Classes/Section.swift:187-194 | the footer title slot returns the text for every argument; nothing else changes |
| PodSection.Section.SetFooterDynamicView | Pod/Classes/Section.swift:196-201 | only the footer view slot changes, to the given closure |
| PodSection.Section.SetFooterStaticView | Pod/Classes/Section.swift:203-210 | the footer view slot returns the view for every argument; nothing else changes |
| PodSection.Section.SetFooterDynamicHeight | Pod/Classes/Section.swift:212-217 | only the footer height slot changes, to the given closure |
| PodSection.Section.SetFooterStaticHeight | Pod/Classes/Section.swift:219-226 | the footer height slot returns the height for every argument; nothing else changes |
| PodSection.EqualIsIdentity | Pod/Classes/Section.swift:234-236 | section `==` is reflexive, symmetric and transitive, and holds exactly when the ids are equal; `TableManager.AddSection` does not consult it |
| PodSection.AddRowTwice | Pod/Classes/Section.swift:101-109 | adding the same row twice leaves the section as adding it once does |
| PodSection.RenderedScenario | Pod/Classes/Section.swift:27-32 | rows [A shown, B hidden, C shown] render as [A, C] |
| PodTableManager.TableManager.constructor | Pod/Classes/TableManager.swift:31-41 | stores the widget; no sections |
| PodTableManager.TableManager.SectionsToRender | Pod/Classes/TableManager.swift:21-26 | exactly the visible sections of `sections`, each visible one included, in their order |
| PodTableManager.TableManager.SectionAt | Pod/Classes/TableManager.swift:56-65 | in range: the rendered section at that index, `sections` unchanged; past the end: one fresh visible section appended to `sections` and to the rendered sections |
| PodTableManager.TableManager.RowAt | Pod/Classes/TableManager.swift:50-54 | the section lookup composed with the section's row lookup: in range, the rendered row (or a fresh default row past the rendered rows) with `sections` unchanged; past the rendered sections, one fresh section in its initial state is appended to `sections` and a fresh default row is returned; never adds a row |
| PodTableManager.TableManager.AddSection | Pod/Classes/TableManager.swift:87-92 | appends the given section (or a fresh one) with no identity check, and returns it |
| PodTableManager.TableManager.NumberOfSections | Pod/Classes/TableManager.swift:99-101 | at most the number of sections; zero exactly when no section is visible |
| PodTableManager.TableManager.NumberOfRows | Pod/Classes/TableManager.swift:103-105 | the number of rendered rows of the rendered section at that index; 0 for a new section; `sections` is unchanged in range, and past the rendered sections gains exactly one fresh section in its initial state |
| PodTableManager.TableManager.TitleForHeader | Pod/Classes/TableManager.swift:117-125 | the header title closure's value when set, otherwise none; `sections` is unchanged in range, and past the rendered sections gains exactly one fresh section in its initial state |
| PodTableManager.TableManager.TitleForFooter | Pod/Classes/TableManager.swift:127-135 | the footer title closure's value when set, otherwise none; `sections` is unchanged in range, and past the rendered sections gains exactly one fresh section in its initial state |
| PodTableManager.TableManager.HeightForHeader | Pod/Classes/TableManager.swift:148-156 | the header height closure's value when set, otherwise 0; `sections` is unchanged in range, and past the rendered sections gains exactly one fresh section in its initial state |
| PodTableManager.TableManager.ViewForHeader | Pod/Classes/TableManager.swift:158-166 | the header view closure's value when set, otherwise none; `sections` is unchanged in range, and past the rendered sections gains exactly one fresh section in its initial state |
| PodTableManager.TableManager.HeightForFooter | Pod/Classes/TableManager.swift:168-176 | the footer height closure's value when set, otherwise 0; `sections` is unchanged in range, and past the rendered sections gains exactly one fresh section in its initial state |
| PodTableManager.TableManager.ViewForFooter | Pod/Classes/TableManager.swift:178-186 | the footer view closure's value when set, otherwise none; `sections` is unchanged in range, and past the rendered sections gains exactly one fresh section in its initial state |
| PodTableManager.TableManager.HeightForRow | Pod/Classes/TableManager.swift:188-196 | the row height closure's value at the row index when set, otherwise -1 (also for a made-up row); `sections` is unchanged in range, and past the rendered sections gains exactly one fresh section in its initial state |
| PodTableManager.TwoSectionScenario | Pod/Classes/TableManager.swift:22-26 | with sections [hidden, shown with rows X, Y], one section is rendered, it is the second, and its first rendered row is X |
| MidRow.Row.constructor | TableManager/TableManager/Row.swift:31-36 | stores identifier, visible and object (defaults none, true, none); no closures |
| MidRow.Row.SetIdentifier | TableManager/TableManager/Row.swift:40-43 | only `identifier` changes |
| MidRow.Row.SetObject | TableManager/TableManager/Row.swift:45-48 | only `object` changes |
| MidRow.Row.SetConfiguration | TableManager/TableManager/Row.swift:50-53 | only the configuration slot changes, to the given closure |
| MidRow.Row.SetDidSelect | TableManager/TableManager/Row.swift:55-58 | only the selection slot changes, to the given closure |
| MidRow.Row.SetDynamicHeight | TableManager/TableManager/Row.swift:60-63 | only the height slot changes, to the given closure |
| MidRow.Row.SetStaticHeight | TableManager/TableManager/Row.swift:65-70 | the height slot returns the height for every argument; nothing else changes |
| MidSection.Section.constructor | Section.swift:29-32 | stores visible and object (defaults true, none); no rows, no closures |
| MidSection.Section.VisibleRows | Section.swift:16-20 | exactly the visible rows of `rows`, each visible one included, in their order |
| MidSection.Section.RowAt | Section.swift:36-44 | in range: the rendered row, `rows` unchanged; past the end: one fresh visible row with the default identifier appended to the end of `rows`, earlier rows kept; nothing else changes |
| MidSection.Section.SetObject | Section.swift:46-48 | only `object` changes |
| MidSection.Section.SetHeaderDynamicText | Section.swift:52-54 | only the header title slot changes, to the given closure |
| MidSection.Section.SetHeaderStaticText | Section.swift:56-60 | the header title slot returns the text for every argument; nothing else changes |
| MidSection.Section.SetHeaderDynamicView | Section.swift:62-64 | only the header view slot changes, to the given closure |
| MidSection.Section.SetHeaderStaticView | Section.swift:66-70 | the header view slot returns the view for every argument; nothing else changes |
| MidSection.Section.SetHeaderDynamicHeight | Section.swift:72-74 | only the header height slot changes, to the given closure |
| MidSection.Section.SetHeaderStaticHeight | Section.swift:76-80 | the header height slot returns the height for every argument; nothing else changes |
| MidSection.Section.SetFooterDynamicText | Section.swift:88-90 | only the footer title slot changes, to the given closure |
| MidSection.Section.SetFooterStaticText | Section.swift:92-96 | the footer title slot returns the text for every argument; nothing else changes |
| MidSection.Section.SetFooterDynamicView | Section.swift:98-100 | only the footer view slot changes, to the given closure |
| MidSection.Section.SetFooterStaticView | Section.swift:102-106 | the footer view slot returns the view for every argument; nothing else changes |
| MidSection.Section.SetFooterDynamicHeight | Section.swift:108-110 | only the footer height slot changes, to the given closure |
| MidSection.Section.SetFooterStaticHeight | Section.swift:112-116 | the footer height slot returns the height for every argument; nothing else changes |
| MidSection.VisibleAppend | Section.swift:39-43 | appending a visible row (such as the placeholder) to `rows` appends it to the rendered rows |
| EarlyTableManager.Row.constructor | TableManager.swift:181-183 | stores the immutable identifier; visible, no object, no closures |
| EarlyTableManager.Row.WithObject | TableManager.swift:185-190 | stores identifier, object and configure closure; visible; the other closures empty |
| EarlyTableManager.RowAppend | TableManager.swift:164-166 | appending a visible row (such as the placeholder) to `rows` appends it to the rendered rows |
| EarlyTableManager.Section.constructor | TableManager.swift:144-158 | visible, no rows, static header height 0, every header slot empty |
| EarlyTableManager.Section.VisibleRows | TableManager.swift:148-152 | exactly the visible rows of `rows`, each visible one included, in their order |
| EarlyTableManager.Section.RowForIndex | TableManager.swift:160-168 | in range: the rendered row, `rows` unchanged; past the end: one fresh visible row with the default identifier appended to the end of `rows`, earlier rows kept; nothing else changes |
| EarlyTableManager.TableManager.constructor | TableManager.swift:24-33 | stores the widget; no sections |
| EarlyTableManager.TableManager.VisibleSections | TableManager.swift:18-22 | exactly the visible sections of `sections`, each visible one included, in their order |
| EarlyTableManager.TableManager.SectionForIndex | TableManager.swift:46-54 | in range: the rendered section, `sections` unchanged; past the end: one fresh visible section appended to `sections` and to the rendered sections |
| EarlyTableManager.TableManager.RowForIndexPath | TableManager.swift:41-44 | the section lookup composed with the row lookup of the section it finds: each may append one placeholder; every other section is unchanged |
| EarlyTableManager.TableManager.NumberOfSections | TableManager.swift:62-64 | at most the number of sections; zero exactly when no section is visible |
| EarlyTableManager.TableManager.NumberOfRows | TableManager.swift:66-68 | the number of rendered rows of the rendered section at that index; 0 for a new section; `sections` is unchanged in range, and past the rendered sections gains exactly one fresh visible section in its initial state |
| EarlyTableManager.TableManager.HeightForHeader | TableManager.swift:87-96 | the dynamic height closure's value when set, otherwise the static height (0 for a new section); `sections` is unchanged in range, and past the rendered sections gains exactly one fresh visible section in its initial state |
| EarlyTableManager.TableManager.TitleForHeader | TableManager.swift:98-110 | the dynamic title closure's value when set, else the static title, else none; `sections` is unchanged in range, and past the rendered sections gains exactly one fresh visible section in its initial state |
| EarlyTableManager.TableManager.ViewForHeader | TableManager.swift:112-124 | the dynamic view closure's value when set, else the static view, else none; `sections` is unchanged in range, and past the rendered sections gains exactly one fresh visible section in its initial state |

## Left out

- Widget plumbing is not modelled. This covers cell registration and
  dequeueing, cell construction in `cellForRowAtIndexPath`, `reloadData`,
  invoking the selection closure, and `selectedRow`/`visibleRows`. All of
  these are foreign calls into UIKit; the model only records which closure
  sits in which slot.
- The scroll-event forwarding in Pod/Classes/TableManager.swift (from line
  200) is pure pass-through to an optional delegate, so it is left out.
- Pod/Classes/TableViewExtension.swift and
  TableManager/TableManager/TableViewExtension.swift are left out. They cache
  the manager through key-value coding and otherwise delegate to members that
  are not in the modelled files.
- Pod/Classes/SpaceRow.swift is cell styling and is left out. Its only logic
  calls `Row.setHeight(withStaticHeight:)`, which is modelled.
- Bodies of consumer closures are opaque:
  - value-returning closures (heights, titles, views) are Dafny functions
    whose results are passed through unchanged;
  - side-effect closures (configuration, selection, configure-cell,
    cell-for-row) are opaque `Closure` references.
- Every stored value-returning closure takes `(TableView, index)`. It does not
  receive the row or section that owns it, because Dafny cannot store in an
  object a function that takes that object's class. The manager always passes
  the owner in the source, and the closure bodies are not modelled, so no
  modelled result depends on it.
- `CGFloat` and `Double` are modelled as `real`. No arithmetic is done on
  them; the `CGFloat(...)` conversions are identities.
- The hidden `id` of a current-generation row or section (an `NSObject`,
  never reassigned) is a `const` identity token.
- `Section.swift` makes its placeholder row with `Row(withIdentifier:
  defaultCellIdentifier)`. That initialiser and constant are not part of this
  model; the row is taken to carry the constant's value from
  Pod/Classes/TableManager.swift:11, "DefaultCellIdentifier".
- The weak reference to the widget is modelled as a plain field. Its becoming
  nil is not modelled.
- MidSection.Section.RowAt and EarlyTableManager.Section.RowForIndex state
  that an out-of-range read appends one visible row to `rows`. They do not
  restate that the rendered rows grow by that row; the lemmas
  `MidSection.VisibleAppend` and `EarlyTableManager.RowAppend` state that
  step, so that each method's proof stays small.
- The row-height fallback is -1 (Pod/Classes/TableManager.swift:195). No
  fixed default height and no zero height for hidden rows appear in the
  modelled files, so neither is modelled.
- Deleting and moving rows by rendered position, the section index titles,
  and the edit-style and delete-confirmation queries to the widget are not in
  the modelled files, so they are not modelled.
