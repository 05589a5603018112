/**
 * The list of expanded row keys and the rules by which a toggle changes it.
 * Every function here takes the list the store currently holds.
 */
module ExpandedKeys {
  import opened Js
  import opened RowForest

  /** No key occurs twice. */
  predicate Distinct(keys: seq<Value>) {
    forall i, j :: 0 <= i < j < |keys| ==> keys[i] != keys[j]
  }

  /** `getExpandedRows().filter(k => k === key)[0]`: the stored key equal to
      `key`, or `undefined` when there is none. */
  function FindExpandedRow(keys: seq<Value>, key: Value): (r: Value)
    ensures key in keys ==> r == key
    ensures key !in keys ==> r == Undefined
  {
    if keys == [] then Undefined
    else if keys[0] == key then keys[0]
    else FindExpandedRow(keys[1..], key)
  }

  /** `isRowExpanded`: the lookup found something other than `undefined`.
      A stored `undefined` key therefore never counts as expanded. */
  function IsRowExpanded(keys: seq<Value>, key: Value): (r: bool)
    ensures r <==> key in keys && key != Undefined
  {
    FindExpandedRow(keys, key) != Undefined
  }

  /** `Array.prototype.indexOf` with strict equality. */
  function IndexOf(keys: seq<Value>, key: Value): (r: int)
    ensures r == -1 <==> key !in keys
    ensures r != -1 ==> 0 <= r < |keys| && keys[r] == key && key !in keys[..r]
  {
    if keys == [] then -1
    else if keys[0] == key then 0
    else
      var k := IndexOf(keys[1..], key);
      if k == -1 then -1 else k + 1
  }

  /** `indexOf` followed by `splice(i, 1)` when the key was found: the first
      occurrence of `key` goes, every other entry stays, in order. */
  function RemoveFirst(keys: seq<Value>, key: Value): (r: seq<Value>)
    ensures key !in keys ==> r == keys
    ensures key in keys ==>
      exists i :: 0 <= i < |keys| && keys[i] == key && key !in keys[..i] && r == keys[..i] + keys[i + 1..]
    ensures multiset(r) == multiset(keys) - multiset{key}
  {
    var i := IndexOf(keys, key);
    if i == -1 then keys
    else
      assert keys == keys[..i] + [keys[i]] + keys[i + 1..];
      keys[..i] + keys[i + 1..]
  }

  /**
   * The list that `handleExpandChange(expanded, record, event, index)`
   * commits, or `None` when it commits nothing. Membership is looked up
   * with `getRowKey(record)` (no index), while the key removed or appended
   * is `getRowKey(record, index)`. A collapse needs a lookup result that is
   * not `undefined`; an expand needs a falsy one, so a falsy key already in
   * the list is appended again.
   */
  function ExpandChange(keys: seq<Value>, getRowKey: (Row, Index) -> Value,
                        record: Row, index: Index, expanded: bool): (r: Option<seq<Value>>)
    ensures var probe := getRowKey(record, NoIndex);
      r.Some? <==>
        (!expanded && probe in keys && probe != Undefined) ||
        (expanded && (probe !in keys || !Truthy(probe)))
    ensures r.Some? && !expanded ==> r.value == RemoveFirst(keys, getRowKey(record, index))
    ensures r.Some? && expanded ==> r.value == keys + [getRowKey(record, index)]
  {
    var info := FindExpandedRow(keys, getRowKey(record, NoIndex));
    if info != Undefined && !expanded then
      Some(RemoveFirst(keys, getRowKey(record, index)))
    else if !Truthy(info) && expanded then
      Some(keys + [getRowKey(record, index)])
    else
      None
  }

  /** The resolver gives the row the same key whatever index it is passed. */
  ghost predicate IgnoresIndex(getRowKey: (Row, Index) -> Value, record: Row) {
    forall index :: getRowKey(record, index) == getRowKey(record, NoIndex)
  }

  /** Expanding a row whose key is absent and then collapsing it gives back
      the original list, order included. */
  lemma ExpandThenCollapse(keys: seq<Value>, getRowKey: (Row, Index) -> Value,
                           record: Row, i: Index, j: Index)
    requires IgnoresIndex(getRowKey, record)
    requires getRowKey(record, NoIndex) !in keys && getRowKey(record, NoIndex) != Undefined
    ensures var expandedKeys := ExpandChange(keys, getRowKey, record, i, true);
      expandedKeys == Some(keys + [getRowKey(record, NoIndex)]) &&
      ExpandChange(expandedKeys.value, getRowKey, record, j, false) == Some(keys)
  {
    var key := getRowKey(record, NoIndex);
    assert getRowKey(record, i) == key && getRowKey(record, j) == key;
    var grown := keys + [key];
    var r := RemoveFirst(grown, key);
    assert key in grown;
    var n :| 0 <= n < |grown| && grown[n] == key && key !in grown[..n] && r == grown[..n] + grown[n + 1..];
    assert forall m :: 0 <= m < |keys| ==> grown[m] == keys[m];
    assert n == |keys|;
    assert grown[..n] == keys && grown[n + 1..] == [];
    assert r == keys;
    assert ExpandChange(keys, getRowKey, record, i, true) == Some(grown);
    assert ExpandChange(grown, getRowKey, record, j, false) == Some(r);
  }

  /** After an expand that commits, the row reads as expanded, unless its
      key is `undefined`. */
  lemma ExpandMakesRowExpanded(keys: seq<Value>, getRowKey: (Row, Index) -> Value,
                               record: Row, index: Index)
    requires IgnoresIndex(getRowKey, record)
    requires ExpandChange(keys, getRowKey, record, index, true).Some?
    ensures var next := ExpandChange(keys, getRowKey, record, index, true).value;
      IsRowExpanded(next, getRowKey(record, index)) <==> getRowKey(record, NoIndex) != Undefined
  {
    assert getRowKey(record, index) == getRowKey(record, NoIndex);
  }

  /** When the key occurred once, a committed collapse leaves the row
      collapsed. */
  lemma CollapseMakesRowCollapsed(keys: seq<Value>, getRowKey: (Row, Index) -> Value,
                                  record: Row, index: Index)
    requires IgnoresIndex(getRowKey, record)
    requires multiset(keys)[getRowKey(record, NoIndex)] == 1
    requires ExpandChange(keys, getRowKey, record, index, false).Some?
    ensures !IsRowExpanded(ExpandChange(keys, getRowKey, record, index, false).value, getRowKey(record, index))
  {
    var key := getRowKey(record, NoIndex);
    assert getRowKey(record, index) == key;
    var next := RemoveFirst(keys, key);
    assert multiset(next)[key] == 0;
  }

  /** A falsy key (such as `0` or `""`) that is already expanded is appended
      a second time by an expand request. */
  lemma FalsyKeyAppendedAgain(keys: seq<Value>, getRowKey: (Row, Index) -> Value,
                              record: Row, index: Index)
    requires IgnoresIndex(getRowKey, record)
    requires getRowKey(record, NoIndex) in keys && !Truthy(getRowKey(record, NoIndex))
    ensures var next := ExpandChange(keys, getRowKey, record, index, true);
      next.Some? &&
      multiset(next.value)[getRowKey(record, NoIndex)] == multiset(keys)[getRowKey(record, NoIndex)] + 1 &&
      !Distinct(next.value)
  {
    var key := getRowKey(record, NoIndex);
    assert getRowKey(record, index) == key;
    var next := keys + [key];
    var i :| 0 <= i < |keys| && keys[i] == key;
    assert next[i] == next[|keys|];
  }

  /** With a truthy key that ignores the index, a toggle keeps the list free
      of duplicates. */
  lemma ExpandChangeKeepsDistinct(keys: seq<Value>, getRowKey: (Row, Index) -> Value,
                                  record: Row, index: Index, expanded: bool)
    requires IgnoresIndex(getRowKey, record)
    requires Truthy(getRowKey(record, NoIndex))
    requires Distinct(keys)
    ensures var next := ExpandChange(keys, getRowKey, record, index, expanded);
      next.Some? ==> Distinct(next.value)
  {
    var key := getRowKey(record, NoIndex);
    assert getRowKey(record, index) == key;
    var next := ExpandChange(keys, getRowKey, record, index, expanded);
    if next.Some? && !expanded {
      var n :| 0 <= n < |keys| && keys[n] == key && key !in keys[..n] && next.value == keys[..n] + keys[n + 1..];
      SpliceKeepsDistinct(keys, n);
    }
  }

  lemma SpliceKeepsDistinct(keys: seq<Value>, n: nat)
    requires n < |keys| && Distinct(keys)
    ensures Distinct(keys[..n] + keys[n + 1..])
  {
    var r := keys[..n] + keys[n + 1..];
    forall i, j | 0 <= i < j < |r|
      ensures r[i] != r[j]
    {
      var i' := if i < n then i else i + 1;
      var j' := if j < n then j else j + 1;
      assert r[i] == keys[i'] && r[j] == keys[j'];
    }
  }

  /** The lookup ignores the index: when the resolver needs it (here, a key
      made from the position alone), no collapse request on any list and at
      any position is ever honoured, although the row reads as expanded at
      its position once that key is stored. */
  lemma CollapseIgnoredWhenKeyNeedsIndex(keys: seq<Value>, record: Row, n: nat)
    ensures var getRowKey := (r: Row, index: Index) => if index.At? then Num(index.i) else Undefined;
      && ExpandChange(keys, getRowKey, record, At(n), false) == None
      && (Num(n) in keys ==> IsRowExpanded(keys, getRowKey(record, At(n))))
  {
  }
}
