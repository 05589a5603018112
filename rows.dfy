/**
 * The table's data: a forest of rows, each possibly holding its children
 * under the children column. The breadth-first order in which the
 * expand-all seeding loop visits the forest is `Bfs`; `Preorder` is an
 * independent listing of every row, used to show that `Bfs` visits each
 * row of the forest exactly once.
 */
module RowForest {
  import opened Js

  /** A data record: its other columns, and the value of its children column. */
  datatype Row = Row(fields: map<string, Value>, children: ChildrenField)

  /** The children column holds a falsy value (absent, `undefined`, `null`)
      or an array of rows, which is truthy even when empty. */
  datatype ChildrenField = Falsy | Rows(rows: seq<Row>)

  /** `row[childrenColumnName] || []` */
  function Kids(r: Row): seq<Row> {
    match r.children
    case Falsy => []
    case Rows(c) => c
  }

  /** Number of rows in a forest, counting every depth. */
  function ForestSize(q: seq<Row>): nat
    decreases q, 1
  {
    if q == [] then 0 else RowSize(q[0]) + ForestSize(q[1..])
  }

  function RowSize(r: Row): nat
    decreases r, 0
  {
    1 + match r.children
        case Falsy => 0
        case Rows(c) => ForestSize(c)
  }

  lemma ForestSizeUnfold(q: seq<Row>)
    requires q != []
    ensures ForestSize(q) == 1 + ForestSize(Kids(q[0])) + ForestSize(q[1..])
  {
  }

  lemma {:induction false} ForestSizeAppend(a: seq<Row>, b: seq<Row>)
    ensures ForestSize(a + b) == ForestSize(a) + ForestSize(b)
  {
    if a == [] {
      assert a + b == b;
    } else {
      assert (a + b)[1..] == a[1..] + b;
      ForestSizeAppend(a[1..], b);
    }
  }

  /** Depth-first listing: each row, then its subtree, then its siblings. */
  function Preorder(q: seq<Row>): seq<Row>
    decreases ForestSize(q)
  {
    if q == [] then []
    else
      ForestSizeUnfold(q);
      [q[0]] + Preorder(Kids(q[0])) + Preorder(q[1..])
  }

  /** The worklist walk of the expand-all seeding: visit the head of the
      queue, then continue with the rest of the queue followed by the
      head's children. */
  function Bfs(q: seq<Row>): seq<Row>
    decreases ForestSize(q)
  {
    if q == [] then []
    else
      ForestSizeUnfold(q);
      ForestSizeAppend(q[1..], Kids(q[0]));
      [q[0]] + Bfs(q[1..] + Kids(q[0]))
  }

  lemma {:induction false} PreorderAppend(a: seq<Row>, b: seq<Row>)
    ensures Preorder(a + b) == Preorder(a) + Preorder(b)
    decreases ForestSize(a)
  {
    if a == [] {
      assert a + b == b;
    } else {
      assert (a + b)[0] == a[0];
      assert (a + b)[1..] == a[1..] + b;
      ForestSizeUnfold(a);
      PreorderAppend(a[1..], b);
    }
  }

  /** The walk lists exactly the rows of the forest, each once: it is a
      permutation of the depth-first listing. */
  lemma {:induction false} BfsPermutesPreorder(q: seq<Row>)
    ensures multiset(Bfs(q)) == multiset(Preorder(q))
    decreases ForestSize(q)
  {
    if q != [] {
      var rest := q[1..] + Kids(q[0]);
      ForestSizeUnfold(q);
      ForestSizeAppend(q[1..], Kids(q[0]));
      BfsPermutesPreorder(rest);
      PreorderAppend(q[1..], Kids(q[0]));
      calc {
        multiset(Bfs(q));
        multiset([q[0]]) + multiset(Preorder(rest));
        multiset([q[0]]) + multiset(Preorder(q[1..])) + multiset(Preorder(Kids(q[0])));
        multiset(Preorder(q));
      }
    }
  }

  /** The walk visits as many rows as the forest holds. */
  lemma {:induction false} BfsLength(q: seq<Row>)
    ensures |Bfs(q)| == ForestSize(q)
    decreases ForestSize(q)
  {
    if q != [] {
      ForestSizeUnfold(q);
      ForestSizeAppend(q[1..], Kids(q[0]));
      BfsLength(q[1..] + Kids(q[0]));
    }
  }

  /** The walk starts with the queue it is given, in order: the top-level
      rows come first, each at its own position. */
  lemma {:induction false} BfsStartsWithQueue(q: seq<Row>)
    ensures |q| <= |Bfs(q)| && Bfs(q)[..|q|] == q
    decreases ForestSize(q)
  {
    if q != [] {
      var rest := q[1..] + Kids(q[0]);
      ForestSizeUnfold(q);
      ForestSizeAppend(q[1..], Kids(q[0]));
      BfsStartsWithQueue(rest);
      assert Bfs(rest)[..|q| - 1] == rest[..|q| - 1] == q[1..];
      assert Bfs(q)[..|q|] == [q[0]] + Bfs(rest)[..|q| - 1];
    }
  }
}
