# Expandable table: row-expansion logic

This project models the row-expansion part of a React table component,
`ExpandableTable` (`src/ExpandableTable.js`). The component keeps an ordered
list of expanded row keys in a shared view-state store. It seeds that list
when it is constructed. It toggles a row's key when the user expands or
collapses the row. A controlling parent can replace the whole list. For each
row it decides whether to render an expanded-detail pseudo-row, recurse into
the row's children, or render nothing.

Modules, one file each:

- `Js` (`js_values.dfy`): JavaScript values (row keys, rendered content, the
  `fixed` marker). The module defines truthiness and `String(v)` as a template
  literal prints it. Strict equality `===` is datatype equality.
- `RowForest` (`rows.dfy`): rows and their children column. It defines the
  breadth-first worklist walk `Bfs` used by expand-all seeding, and
  `Preorder`, an independent listing of the forest, used to show that the walk
  visits every row once.
- `ExpandedKeys` (`expanded_keys.dfy`): lookup of a key in the list
  (`findExpandedRow`, `isRowExpanded`), `indexOf`/`splice`, and
  `ExpandChange`. `ExpandChange` is the list that `handleExpandChange`
  commits, or nothing. Each function takes the store's current list as a
  parameter; `getExpandedRows()` is that read.
- `TableProps` (`table_props.dfy`): the props. The application callbacks
  `getRowKey`, `expandedRowRender` and `expandedRowClassName` are total
  functions. The column manager is reduced to its three leaf-column counts.
- `RowRendering` (`row_rendering.dfy`): `renderRows`, `renderExpandedRow`
  reduced to the columns and keys it passes to the row renderer, and
  `needIndentSpaced`.
- `Table` (`expandable_table.dfy`): the store (a class with the two fields
  the component uses) and the component class. The class has the constructor
  with its seeding loop, `componentWillReceiveProps`, `updateExpandedRows` and
  `handleExpandChange`. The calls to `onExpand`, `onExpandedRowsChange`,
  `preventDefault` and `stopPropagation` are returned, in order, as a list of
  `Effect`s.

Quirks of the code that the model keeps as written:

- Membership is looked up with `getRowKey(record)`, with no index (line 84).
  The key removed or appended uses `index` (lines 90, 98). `CollapseIgnoredWhenKeyNeedsIndex`
  shows a resolver for which a collapse request is never honoured.
- A collapse requires the lookup result to be other than `undefined`. An
  expand requires it to be falsy (lines 88, 96). So a falsy key such as `0`
  or `""` that is already in the list is appended a second time
  (`FalsyKeyAppendedAgain`). A stored `undefined` key never counts as expanded.
- A children field holding an empty array is truthy, so it is still recursed
  into (line 205).

Two further behaviours of the code are worth stating plainly:

- With `defaultExpandAllRows`, the loop at lines 50-54 seeds a key for every
  visited row, childless rows included, not only for rows that have children
  (`ExpandAllExample`).
- Detail content and the children field are tested for truthiness (lines
  194, 205): an empty children array still recurses, and detail content such
  as `0` or `""` is not rendered.

## Model

| member | source | states |
|---|---|---|
| `RowForest.BfsPermutesPreorder` | src/ExpandableTable.js:50-54 | the worklist walk lists exactly the rows of the forest, at every depth, each once: it is a permutation of the depth-first listing |
| `RowForest.BfsLength` | src/ExpandableTable.js:50-54 | the walk visits as many rows as the forest holds, so it terminates with one entry per row |
| `RowForest.BfsStartsWithQueue` | src/ExpandableTable.js:47-53 | the walk begins with the top-level rows, in their order, before any child |
| `Table.ExpandAllKeys` | src/ExpandableTable.js:46-54 | the seeding loop terminates; its j-th key is `getRowKey` of the j-th row of the breadth-first worklist, resolved with index j |
| `Table.ExpandAllSeedsEveryRow` | src/ExpandableTable.js:46-65 | with expand-all, the seeded list has one key per row of the forest; each top-level row is keyed at its own position |
| `Table.ExpandAllExample` | src/ExpandableTable.js:46-54 | for `[A(children [A1]), B]` the seeded keys are those of A, B and A1, at positions 0, 1 and 2 |
| `Table.ExpandableTable.constructor` | src/ExpandableTable.js:34-66 | the store gets an empty height map and the seeded list: the expand-all keys, else `expandedRowKeys` when given, else `defaultExpandedRowKeys` |
| `Table.ExpandableTable.ReceiveProps` | src/ExpandableTable.js:68-74 | a present `expandedRowKeys` replaces the stored list wholesale; an absent one leaves it; the height map is untouched |
| `Table.ExpandableTable.UpdateExpandedRows` | src/ExpandableTable.js:104-109 | the store is written only when `expandedRowKeys` is not supplied; `onExpandedRowsChange` fires with the new list in every case |
| `Table.ExpandableTable.HandleExpandChange` | src/ExpandableTable.js:76-102 | event suppression comes first; the list `ExpandChange` yields is stored only when uncontrolled, and the change callback fires only when it yields one; `onExpand(expanded, record)` fires once, last; heights unchanged |
| `ExpandedKeys.FindExpandedRow` | src/ExpandableTable.js:111-114 | the first stored key `===` the resolved key, which is that key when present and `undefined` when absent |
| `ExpandedKeys.IsRowExpanded` | src/ExpandableTable.js:120-122 | a row is expanded iff its resolved key is in the list and is not `undefined` |
| `ExpandedKeys.IndexOf` | src/ExpandableTable.js:91 | -1 iff the key is absent; otherwise the position of its first occurrence |
| `ExpandedKeys.RemoveFirst` | src/ExpandableTable.js:91-94 | only the first occurrence of the key is removed, the others keep their order; the list is unchanged when the key is absent; the multiset loses exactly one copy |
| `ExpandedKeys.ExpandChange` | src/ExpandableTable.js:84-100 | a list is committed iff (collapse and the index-less key is present and not `undefined`) or (expand and that key is absent or falsy); a collapse commits the list without the first occurrence of the indexed key, an expand commits the list with that key appended |
| `ExpandedKeys.ExpandThenCollapse` | src/ExpandableTable.js:86-99 | for a resolver that ignores the index, expanding an absent non-`undefined` key and then collapsing it restores the original list, order included |
| `ExpandedKeys.ExpandMakesRowExpanded` | src/ExpandableTable.js:96-99 | after a committed expand the row reads as expanded iff its key is not `undefined` |
| `ExpandedKeys.CollapseMakesRowCollapsed` | src/ExpandableTable.js:88-95 | after a committed collapse of a key stored once, the row reads as collapsed |
| `ExpandedKeys.FalsyKeyAppendedAgain` | src/ExpandableTable.js:96-99 | an expand request for a falsy key already in the list appends it again, so the list gets a duplicate |
| `ExpandedKeys.ExpandChangeKeepsDistinct` | src/ExpandableTable.js:84-100 | for a truthy key that ignores the index, a toggle keeps a duplicate-free list duplicate-free |
| `ExpandedKeys.CollapseIgnoredWhenKeyNeedsIndex` | src/ExpandableTable.js:84-90 | with a resolver that keys a row by its position, no collapse request on any list at any position commits, because the lookup passes no index, even when the row reads as expanded there |
| `RowRendering.RenderExpandedRow` | src/ExpandableTable.js:124-150 | the content cell is last and spans the left, right or all leaf columns by side; on the right side it shows `&nbsp;`, never the content; one icon placeholder precedes it iff `expandIconAsCell` and the side is not right; the key is `${parentKey}-extra-row` |
| `RowRendering.ExtraRowKeyInjective` | src/ExpandableTable.js:150 | two parent keys give the same pseudo-row key iff they print alike |
| `RowRendering.NumericExtraRowKeysDistinct` | src/ExpandableTable.js:150 | distinct numeric parent keys give distinct pseudo-row keys |
| `Js.NumStringInjective` | src/ExpandableTable.js:150 | distinct integers print as distinct strings in a template literal |
| `Js.DecimalRoundTrip` | src/ExpandableTable.js:150 | reading back the decimal digits of a number gives the number |
| `RowRendering.RenderRows` | src/ExpandableTable.js:187-214 | the one-row detail result appears iff the row is expanded and the renderer gives truthy content, and then wins over children and is exactly the pseudo-row `renderExpandedRow` builds from that content, the class name and the side; otherwise a truthy children field, even an empty array, recurses with `indent + 1`; otherwise nothing |
| `RowRendering.NeedIndentSpaced` | src/ExpandableTable.js:218 | true iff some top-level record has a truthy children field |
| `Table.ExpandThenRenderChildrenExample` | src/ExpandableTable.js:96-99 | with the component's resolver keying rows by `id`, expanding row 1 from an empty list commits `[1]`, after which row 1 reads as expanded and, without a detail renderer, renders its child one level deeper |

## Left out

- The JSX of `renderExpandedRow` and the components `ExpandedRowHeigh`, `ExpandedRowVisible` and `TableRow` (lines 152-184). They are rendering and height/visibility measurement whose code is not part of this model. Only the columns, keys, class name and `!!fixed` flag passed to them are modelled. Each column's `render` closure is reduced to the value it renders.
- The `createStore` subscribe/notify behaviour and React's lifecycle scheduling. The store is a class with the two fields this component reads and writes.
- `propTypes`, `defaultProps`, and the styling-only props `indentSize`, `expandIconColumnIndex` and `prefixCls`. `expandRowByClick` is read but unused.
- The `columns` prop that `renderRows` passes on to the outer renderer with the children (line 209). The outer renderer is not part of this model, so `ChildRows` omits it.
- `childrenColumnName`: each row carries the one children column as a field.
- A children field holding a truthy value that is not an array. `concat` would append that value itself as one row.
- The `children({...})` render-prop call in `render` (lines 220-225). Only `needIndentSpaced` is modelled.
- What the `onExpand` and `onExpandedRowsChange` callbacks do, including any re-entrant calls into the component. They are recorded as effects. The DOM event is reduced to whether one was passed.
- `Table.ExpandableTable.ReceiveProps`: `expandedRowKeys` present in the new props with the value `undefined` or `null` is treated as absent. The code would store that value.
- Numbers are integers. NaN, fractions and the exponent notation that JavaScript prints for magnitudes of 1e21 and above are not modelled. Objects and React elements are `Obj(id)`, compared by identity.
