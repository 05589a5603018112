/**
 * The stateful part of the expandable table: the shared store holding the
 * expanded-key list, the constructor that seeds it, the handler that
 * toggles a row, and the replacement of the list by a controlling parent.
 * Callbacks the application supplies (`onExpand`, `onExpandedRowsChange`)
 * and the event's `preventDefault` / `stopPropagation` are recorded, in
 * the order they happen, as `Effect`s.
 */
module Table {
  import opened Js
  import opened RowForest
  import opened TableProps
  import opened ExpandedKeys
  import opened RowRendering

  datatype Effect =
    | PreventDefault
    | StopPropagation
    | ExpandedRowsChange(keys: seq<Value>)
    | Expand(expanded: bool, record: Row)

  /** The part of the view-state store this component reads and writes. */
  class Store {
    var expandedRowKeys: seq<Value>
    var expandedRowsHeight: map<string, int>
  }

  /** The key of each row of a worklist, resolved with its position. */
  function WorklistKeys(rows: seq<Row>, getRowKey: (Row, Index) -> Value): seq<Value> {
    seq(|rows|, j requires 0 <= j < |rows| => getRowKey(rows[j], At(j)))
  }

  /**
   * The expand-all seeding loop of the constructor: walk a worklist that
   * starts as the data and grows by each visited row's children, and push
   * the key of every visited row, resolved with its position in the worklist.
   */
  method ExpandAllKeys(data: seq<Row>, getRowKey: (Row, Index) -> Value) returns (keys: seq<Value>)
    ensures keys == WorklistKeys(Bfs(data), getRowKey)
  {
    keys := [];
    var rows := data;
    var i := 0;
    while i < |rows|
      invariant 0 <= i <= |rows|
      invariant rows[..i] + Bfs(rows[i..]) == Bfs(data)
      invariant keys == WorklistKeys(rows[..i], getRowKey)
      decreases ForestSize(rows[i..])
    {
      var row := rows[i];
      ghost var done, rest := rows[..i], rows[i + 1..];
      assert rows[i..] == [row] + rest;
      ForestSizeUnfold(rows[i..]);
      ForestSizeAppend(rest, Kids(row));
      keys := keys + [getRowKey(row, At(i))];
      rows := rows + Kids(row);
      assert rows[..i + 1] == done + [row];
      assert rows[i + 1..] == rest + Kids(row);
      i := i + 1;
    }
  }

  /** The key list the constructor puts into the store. */
  ghost function InitialExpandedRowKeys(p: Props): seq<Value> {
    if p.defaultExpandAllRows then WorklistKeys(Bfs(p.data), p.getRowKey)
    else match p.expandedRowKeys
      case Some(keys) => keys
      case None => p.defaultExpandedRowKeys
  }

  class ExpandableTable {
    var props: Props
    const store: Store

    constructor (p: Props, s: Store)
      modifies s
      ensures props == p && store == s
      ensures s.expandedRowKeys == InitialExpandedRowKeys(p)
      ensures s.expandedRowsHeight == map[]
    {
      var finalExpandedRowKeys := [];
      if p.defaultExpandAllRows {
        finalExpandedRowKeys := ExpandAllKeys(p.data, p.getRowKey);
      } else {
        finalExpandedRowKeys := match p.expandedRowKeys
          case Some(keys) => keys
          case None => p.defaultExpandedRowKeys;
      }
      props := p;
      store := s;
      new;
      s.expandedRowsHeight := map[];
      s.expandedRowKeys := finalExpandedRowKeys;
    }

    /** `componentWillReceiveProps`, followed by React's replacement of the
        props: a present `expandedRowKeys` overwrites the stored list. */
    method ReceiveProps(next: Props)
      modifies this, store
      ensures props == next
      ensures store.expandedRowKeys ==
        (if next.expandedRowKeys.Some? then next.expandedRowKeys.value else old(store.expandedRowKeys))
      ensures store.expandedRowsHeight == old(store.expandedRowsHeight)
    {
      if next.expandedRowKeys.Some? {
        store.expandedRowKeys := next.expandedRowKeys.value;
      }
      props := next;
    }

    /** `updateExpandedRows`: the store is written only when uncontrolled;
        the change callback fires either way. */
    method UpdateExpandedRows(expandedRowKeys: seq<Value>) returns (effects: seq<Effect>)
      modifies store
      ensures store.expandedRowKeys ==
        (if props.expandedRowKeys.None? then expandedRowKeys else old(store.expandedRowKeys))
      ensures store.expandedRowsHeight == old(store.expandedRowsHeight)
      ensures effects == [ExpandedRowsChange(expandedRowKeys)]
    {
      if props.expandedRowKeys.None? {
        store.expandedRowKeys := expandedRowKeys;
      }
      effects := [ExpandedRowsChange(expandedRowKeys)];
    }

    /** `handleExpandChange(expanded, record, event, index)`. */
    method HandleExpandChange(expanded: bool, record: Row, hasEvent: bool, index: Index)
      returns (effects: seq<Effect>)
      modifies store
      ensures var next := ExpandChange(old(store.expandedRowKeys), props.getRowKey, record, index, expanded);
        && store.expandedRowKeys ==
             (if next.Some? && props.expandedRowKeys.None? then next.value else old(store.expandedRowKeys))
        && effects ==
             (if hasEvent then [PreventDefault, StopPropagation] else []) +
             (if next.Some? then [ExpandedRowsChange(next.value)] else []) +
             [Expand(expanded, record)]
      ensures store.expandedRowsHeight == old(store.expandedRowsHeight)
    {
      ghost var next := ExpandChange(store.expandedRowKeys, props.getRowKey, record, index, expanded);
      effects := if hasEvent then [PreventDefault, StopPropagation] else [];
      var info := FindExpandedRow(store.expandedRowKeys, props.getRowKey(record, NoIndex));
      // `concat()`: a copy, so the stored list is never changed in place
      var expandedRows := store.expandedRowKeys;
      if info != Undefined && !expanded {
        var rowKey := props.getRowKey(record, index);
        var expandedRowIndex := IndexOf(expandedRows, rowKey);
        if expandedRowIndex != -1 {
          expandedRows := expandedRows[..expandedRowIndex] + expandedRows[expandedRowIndex + 1..];
        }
        assert next == Some(expandedRows);
        var changed := UpdateExpandedRows(expandedRows);
        effects := effects + changed;
      } else if !Truthy(info) && expanded {
        expandedRows := expandedRows + [props.getRowKey(record, index)];
        assert next == Some(expandedRows);
        var changed := UpdateExpandedRows(expandedRows);
        effects := effects + changed;
      } else {
        assert next == None;
      }
      effects := effects + [Expand(expanded, record)];
    }
  }

  /** With expand-all, the seeded list holds one key per row of the whole
      forest; the top-level rows come first, each keyed at its own position,
      and the rows keyed are exactly the rows of the forest. */
  lemma ExpandAllSeedsEveryRow(p: Props)
    requires p.defaultExpandAllRows
    ensures var keys := InitialExpandedRowKeys(p);
      && |keys| == ForestSize(p.data)
      && |p.data| <= |keys|
      && (forall j :: 0 <= j < |p.data| ==> keys[j] == p.getRowKey(p.data[j], At(j)))
      && multiset(Bfs(p.data)) == multiset(Preorder(p.data))
  {
    BfsLength(p.data);
    BfsStartsWithQueue(p.data);
    BfsPermutesPreorder(p.data);
    forall j | 0 <= j < |p.data|
      ensures Bfs(p.data)[j] == p.data[j]
    {
      assert Bfs(p.data)[..|p.data|][j] == Bfs(p.data)[j];
    }
  }

  /** Two top-level rows, the first with one child: every visited row is
      seeded, childless ones included, in breadth-first order. */
  lemma ExpandAllExample(getRowKey: (Row, Index) -> Value)
    ensures var a1 := Row(map["id" := Num(11)], Falsy);
      var a := Row(map["id" := Num(1)], Rows([a1]));
      var b := Row(map["id" := Num(2)], Falsy);
      WorklistKeys(Bfs([a, b]), getRowKey) ==
        [getRowKey(a, At(0)), getRowKey(b, At(1)), getRowKey(a1, At(2))]
  {
    var a1 := Row(map["id" := Num(11)], Falsy);
    var a := Row(map["id" := Num(1)], Rows([a1]));
    var b := Row(map["id" := Num(2)], Falsy);
    assert Bfs([a1]) == [a1] by {
      assert [a1][1..] + Kids(a1) == [];
    }
    assert Bfs([b, a1]) == [b, a1] by {
      assert [b, a1][1..] + Kids(b) == [a1];
    }
    assert Bfs([a, b]) == [a, b, a1] by {
      assert [a, b][1..] + Kids(a) == [b, a1];
    }
  }

  /** A row keyed by its `id` column is expanded from an empty list; the
      committed list then makes the row read as expanded, and with no detail
      renderer the row renders its children one level deeper. */
  lemma ExpandThenRenderChildrenExample(p: Props)
    requires p.expandedRowRender.None?
    requires forall r: Row, i: Index :: p.getRowKey(r, i) == if "id" in r.fields then r.fields["id"] else Undefined
    ensures var row11 := Row(map["id" := Num(11)], Falsy);
      var row1 := Row(map["id" := Num(1)], Rows([row11]));
      var next := ExpandChange([], p.getRowKey, row1, At(0), true);
      && next == Some([Num(1)])
      && IsRowExpanded(next.value, p.getRowKey(row1, At(0)))
      && RenderRows(p, next.value, row1, At(0), 0, Undefined, Num(1)) == ChildRows([row11], 1, Undefined, Num(1))
  {
    var row11 := Row(map["id" := Num(11)], Falsy);
    var row1 := Row(map["id" := Num(1)], Rows([row11]));
    assert p.getRowKey(row1, NoIndex) == Num(1) && p.getRowKey(row1, At(0)) == Num(1);
    assert ExpandChange([], p.getRowKey, row1, At(0), true) == Some([] + [Num(1)]);
    assert [] + [Num(1)] == [Num(1)];
    var out := RenderRows(p, [Num(1)], row1, At(0), 0, Undefined, Num(1));
    assert !out.ExpandedRows?;
    assert out.ChildRows?;
    assert out.data == [row11];
  }
}
