/**
 * What the component renders for one row: the expanded-detail pseudo-row,
 * a recursion into the row's children one level deeper, or nothing. The
 * JSX around the pseudo-row is reduced to the columns and keys it is given.
 */
module RowRendering {
  import opened Js
  import opened RowForest
  import opened TableProps
  import opened ExpandedKeys

  /** A column descriptor of the pseudo-row: the null-rendering icon
      placeholder (key `expand-icon-placeholder`) or the content cell (key
      `extra-row`) rendering `content` across `colSpan` columns. */
  datatype Column = IconPlaceholder | ExtraRowCell(colSpan: nat, content: Value)

  /** The pseudo-row handed to the row renderer. */
  datatype ExpandedRow = ExpandedRow(
    rowKey: string,
    parentKey: Value,
    className: string,
    columns: seq<Column>,
    fixed: bool)

  /** The three results of `renderRows`: a one-element list holding the
      pseudo-row, the outer renderer applied to the children, or undefined. */
  datatype RowsOutput =
    | ExpandedRows(rows: seq<ExpandedRow>)
    | ChildRows(data: seq<Row>, indent: int, fixed: Value, parentKey: Value)
    | NoRows

  const Right := Str("right")
  const Left := Str("left")

  /** Key of the pseudo-row: the template literal `${parentKey}-extra-row`. */
  function ExtraRowKey(parentKey: Value): string {
    JsString(parentKey) + "-extra-row"
  }

  /** Two parent keys give the same pseudo-row key exactly when they print
      alike. */
  lemma ExtraRowKeyInjective(p: Value, q: Value)
    ensures ExtraRowKey(p) == ExtraRowKey(q) <==> JsString(p) == JsString(q)
  {
    if ExtraRowKey(p) == ExtraRowKey(q) {
      var a, b := JsString(p), JsString(q);
      assert |a| == |b|;
      assert a == ExtraRowKey(p)[..|a|];
      assert b == ExtraRowKey(q)[..|b|];
    }
  }

  /** Distinct numeric parent keys get distinct pseudo-row keys. */
  lemma NumericExtraRowKeysDistinct(m: int, n: int)
    requires m != n
    ensures ExtraRowKey(Num(m)) != ExtraRowKey(Num(n))
  {
    if ExtraRowKey(Num(m)) == ExtraRowKey(Num(n)) {
      ExtraRowKeyInjective(Num(m), Num(n));
      NumStringInjective(m, n);
    }
  }

  /** `renderExpandedRow(parentKey, content, className, fixed)`, reduced to
      the row it passes to the row renderer. */
  function RenderExpandedRow(p: Props, parentKey: Value, content: Value,
                             className: string, fixed: Value): (r: ExpandedRow)
    ensures var span := if fixed == Left then p.columnManager.left
                        else if fixed == Right then p.columnManager.right
                        else p.columnManager.leaf;
      var shown := if fixed == Right then Str("&nbsp;") else content;
      && |r.columns| == (if p.expandIconAsCell && fixed != Right then 2 else 1)
      && r.columns[|r.columns| - 1] == ExtraRowCell(span, shown)
      && (forall k :: 0 <= k < |r.columns| - 1 ==> r.columns[k] == IconPlaceholder)
    ensures fixed == Right ==> forall c :: c in r.columns ==> c.ExtraRowCell? && c.content == Str("&nbsp;")
    ensures r.rowKey == ExtraRowKey(parentKey) && r.parentKey == parentKey
    ensures r.className == className && r.fixed == Truthy(fixed)
  {
    var colCount :=
      if fixed == Left then p.columnManager.left
      else if fixed == Right then p.columnManager.right
      else p.columnManager.leaf;
    var columns := [ExtraRowCell(colCount, if fixed != Right then content else Str("&nbsp;"))];
    var columns := if p.expandIconAsCell && fixed != Right then [IconPlaceholder] + columns else columns;
    ExpandedRow(ExtraRowKey(parentKey), parentKey, className, columns, Truthy(fixed))
  }

  /**
   * `renderRows(renderRows, record, index, indent, fixed, parentKey)` given
   * the store's current key list. Detail content wins over the children;
   * a children array, even an empty one, is recursed into one level deeper.
   */
  function RenderRows(p: Props, keys: seq<Value>, record: Row, index: Index,
                      indent: int, fixed: Value, parentKey: Value): (r: RowsOutput)
    ensures var key := p.getRowKey(record, index);
      var expanded := key in keys && key != Undefined;
      r.ExpandedRows? <==>
        expanded && p.expandedRowRender.Some? && Truthy(p.expandedRowRender.value(record, index, indent))
    ensures r.ExpandedRows? ==>
      |r.rows| == 1 && r.rows[0].rowKey == ExtraRowKey(parentKey) && r.rows[0].parentKey == parentKey &&
      r.rows[0].className == p.expandedRowClassName(record, index, indent)
    ensures r.ExpandedRows? ==>
      r.rows == [RenderExpandedRow(p, parentKey, p.expandedRowRender.value(record, index, indent),
                                   p.expandedRowClassName(record, index, indent), fixed)]
    ensures r.ChildRows? <==> !r.ExpandedRows? && record.children.Rows?
    ensures r.ChildRows? ==>
      r.data == Kids(record) && r.indent == indent + 1 && r.fixed == fixed && r.parentKey == parentKey
  {
    var expanded := IsRowExpanded(keys, p.getRowKey(record, index));
    var content :=
      if p.expandedRowRender.Some? && expanded then p.expandedRowRender.value(record, index, indent)
      else Null;
    if Truthy(content) && expanded then
      ExpandedRows([RenderExpandedRow(p, parentKey, content,
                                      p.expandedRowClassName(record, index, indent), fixed)])
    else if record.children.Rows? then
      ChildRows(record.children.rows, indent + 1, fixed, parentKey)
    else
      NoRows
  }

  /** `needIndentSpaced` in `render`: some top-level record has a truthy
      children field. */
  function NeedIndentSpaced(data: seq<Row>): (r: bool)
    ensures r <==> exists i :: 0 <= i < |data| && data[i].children.Rows?
  {
    if data == [] then false
    else data[0].children.Rows? || NeedIndentSpaced(data[1..])
  }
}
