/**
 * The configuration the table component receives. Callbacks supplied by the
 * application (`getRowKey`, `expandedRowRender`, `expandedRowClassName`) are
 * total functions; the column manager is reduced to its three leaf counts.
 */
module TableProps {
  import opened Js
  import opened RowForest

  /** Lengths of `leftLeafColumns()`, `rightLeafColumns()` and `leafColumns()`. */
  datatype ColumnCounts = ColumnCounts(left: nat, right: nat, leaf: nat)

  datatype Props = Props(
    data: seq<Row>,
    getRowKey: (Row, Index) -> Value,
    defaultExpandAllRows: bool,
    /** `None` when the prop is absent (uncontrolled); an array is always truthy. */
    expandedRowKeys: Option<seq<Value>>,
    defaultExpandedRowKeys: seq<Value>,
    expandIconAsCell: bool,
    /** `None` when no detail renderer is configured. */
    expandedRowRender: Option<(Row, Index, int) -> Value>,
    expandedRowClassName: (Row, Index, int) -> string,
    columnManager: ColumnCounts)
}
