/** The tree rebuilt from the tabular listing of a backup archive: every row is hung below the
    last node of the levels above it. */
module BackupTree {

  /** archives, repos, backups, buckets, scopes, collections */
  const LEVELS: nat := 6

  type Attributes = map<string, string>

  /** A row of the listing. */
  datatype Row = Row(level: nat, attributes: Attributes)

  /** A node has its own attributes, and lists of child nodes under level names. */
  datatype Node = Node(attributes: Attributes, children: map<nat, seq<Node>>)

  function Leaf(attributes: Attributes): Node {
    Node(attributes, map[])
  }

  /** The children at a level. */
  function Group(node: Node, level: nat): seq<Node> {
    if level in node.children then node.children[level] else []
  }

  function Append(node: Node, level: nat, row: Attributes): Node {
    var before := Group(node, level);
    node.(children := node.children[level := before + [Leaf(row)]])
  }

  /** The walk from a node down the last children of the levels from `p` on, and the append at
      its end. */
  function Insert(node: Node, p: nat, level: nat, row: Attributes): (r: Node)
    requires p <= level
    ensures r.attributes == node.attributes
    decreases level - p
  {
    if p == level then Append(node, level, row)
    else if p !in node.children then Insert(node, p + 1, level, row)
    else
      var kids := node.children[p];
      if kids == [] then Append(node, level, row)
      else node.(children := node.children[p := kids[..|kids| - 1] + [Insert(kids[|kids| - 1], p + 1, level, row)]])
  }

  predicate RowsFrom(rows: seq<Row>, from: nat) {
    forall i :: 0 <= i < |rows| ==> from <= rows[i].level < LEVELS
  }

  /** Rows inserted one after the other. */
  function Replay(node: Node, from: nat, rows: seq<Row>): (r: Node)
    requires RowsFrom(rows, from)
    decreases |rows|
  {
    if rows == [] then node
    else Replay(Insert(node, from, rows[0].level, rows[0].attributes), from, rows[1..])
  }

  /** What is handed out: the first archive, or the whole tree if there is none. */
  function Answer(tree: Node): Node {
    if 0 in tree.children && tree.children[0] != [] then tree.children[0][0] else tree
  }

  /** Builds the tree row by row. */
  method ConstructTree(rows: seq<Row>) returns (result: Node)
    requires RowsFrom(rows, 0)
    ensures result == Answer(Replay(Leaf(map[]), 0, rows))
  {
    var tree := Leaf(map[]);
    for i := 0 to |rows|
      invariant Replay(tree, 0, rows[i..]) == Replay(Leaf(map[]), 0, rows)
    {
      tree := Insert(tree, 0, rows[i].level, rows[i].attributes);
    }
    result := Answer(tree);
  }

  // ----- trees and their listing

  /** Below a node there are only levels from `from` on, lists are not empty, and what is below a
      child is deeper than the child. */
  ghost predicate WellFormed(node: Node, from: nat)
    requires from <= LEVELS
    decreases LEVELS - from
  {
    && (forall l :: l in node.children ==> from <= l < LEVELS && node.children[l] != [])
    && (forall l, i :: from <= l < LEVELS && l in node.children && 0 <= i < |node.children[l]| ==>
          WellFormed(node.children[l][i], l + 1))
  }

  /** The rows of the children at the levels below `top`, deepest level first. */
  function Listing(node: Node, from: nat, top: nat): seq<Row>
    requires from <= top <= LEVELS
    decreases LEVELS - from, top, 0
  {
    if from == top then []
    else ListingOf(Group(node, top - 1), top - 1) + Listing(node, from, top - 1)
  }

  /** The rows of some siblings: each row is followed by the rows below it. */
  function ListingOf(kids: seq<Node>, level: nat): seq<Row>
    requires level < LEVELS
    decreases LEVELS - level, 0, |kids|
  {
    if kids == [] then []
    else
      var last := kids[|kids| - 1];
      ListingOf(kids[..|kids| - 1], level) + [Row(level, last.attributes)] + Listing(last, level + 1, LEVELS)
  }

  /** The row of a node and the rows below it. */
  function Branch(node: Node, level: nat): seq<Row>
    requires level < LEVELS
  {
    [Row(level, node.attributes)] + Listing(node, level + 1, LEVELS)
  }

  lemma {:induction false} LastSibling(kids: seq<Node>, level: nat)
    requires level < LEVELS && kids != []
    ensures ListingOf(kids, level) == ListingOf(kids[..|kids| - 1], level) + Branch(kids[|kids| - 1], level)
  {
  }

  // ----- listing a tree after an insert

  /** The new row comes last in the listing. */
  lemma {:induction false} ListingInsert(node: Node, from: nat, level: nat, row: Attributes)
    requires from <= level < LEVELS && WellFormed(node, from)
    ensures WellFormed(Insert(node, from, level, row), from)
    ensures Listing(Insert(node, from, level, row), from, LEVELS) == Listing(node, from, LEVELS) + [Row(level, row)]
    decreases LEVELS - from
  {
    ListingInsertAt(node, from, from, level, row);
  }

  /** The walk at level `p`, with nothing below it on this node. */
  lemma {:induction false} ListingInsertAt(node: Node, from: nat, p: nat, level: nat, row: Attributes)
    requires from <= p <= level < LEVELS && WellFormed(node, from)
    requires forall l :: l in node.children ==> p <= l
    ensures WellFormed(Insert(node, p, level, row), from)
    ensures Listing(Insert(node, p, level, row), from, LEVELS) == Listing(node, from, LEVELS) + [Row(level, row)]
    decreases LEVELS - from, level - p
  {
    if p == level {
      ListingAppend(node, from, level, row);
    } else if p !in node.children {
      ListingInsertAt(node, from, p + 1, level, row);
    } else {
      var kids := node.children[p];
      var n := |kids| - 1;
      ListingInsert(kids[n], p + 1, level, row);
      var kids' := kids[..n] + [Insert(kids[n], p + 1, level, row)];
      LastGrows(kids, p, kids'[n], [Row(level, row)]);
      LowestGroup(node, from, p, kids', [Row(level, row)]);
    }
  }

  lemma {:induction false} LastGrows(kids: seq<Node>, level: nat, last: Node, more: seq<Row>)
    requires level < LEVELS && kids != [] && last.attributes == kids[|kids| - 1].attributes
    requires Listing(last, level + 1, LEVELS) == Listing(kids[|kids| - 1], level + 1, LEVELS) + more
    ensures ListingOf(kids[..|kids| - 1] + [last], level) == ListingOf(kids, level) + more
  {
    var front := kids[..|kids| - 1];
    LastSibling(kids, level);
    LastSibling(front + [last], level);
    assert (front + [last])[..|front|] == front;
  }

  lemma {:induction false} ListingAppend(node: Node, from: nat, level: nat, row: Attributes)
    requires from <= level < LEVELS && WellFormed(node, from)
    requires forall l :: l in node.children ==> level <= l
    ensures WellFormed(Append(node, level, row), from)
    ensures Listing(Append(node, level, row), from, LEVELS) == Listing(node, from, LEVELS) + [Row(level, row)]
  {
    var before := Group(node, level);
    var kids' := before + [Leaf(row)];
    assert kids'[..|before|] == before;
    NothingBelow(Leaf(row), level + 1, LEVELS);
    assert ListingOf(kids', level) == ListingOf(before, level) + [Row(level, row)];
    LowestGroup(node, from, level, kids', [Row(level, row)]);
  }

  lemma {:induction false} NothingBelow(node: Node, from: nat, top: nat)
    requires from <= top <= LEVELS && forall l :: 0 <= l < top ==> Group(node, l) == []
    ensures Listing(node, from, top) == []
    decreases top
  {
    if from < top {
      NothingBelow(node, from, top - 1);
    }
  }

  /** Rows added at the end of the lowest group of a node come at the end of its listing. */
  lemma {:induction false} LowestGroup(node: Node, from: nat, p: nat, kids: seq<Node>, more: seq<Row>)
    requires from <= p < LEVELS && WellFormed(node, from)
    requires forall l :: l in node.children ==> p <= l
    requires kids != [] && forall i :: 0 <= i < |kids| ==> WellFormed(kids[i], p + 1)
    requires ListingOf(kids, p) == ListingOf(Group(node, p), p) + more
    ensures var node' := node.(children := node.children[p := kids]);
      WellFormed(node', from) && Listing(node', from, LEVELS) == Listing(node, from, LEVELS) + more
  {
    GroupChanged(node, node.(children := node.children[p := kids]), from, p, more, LEVELS);
  }

  lemma {:induction false} GroupChanged(node: Node, node': Node, from: nat, p: nat, more: seq<Row>, top: nat)
    requires from <= p < top <= LEVELS
    requires forall l :: 0 <= l < p ==> Group(node, l) == [] && Group(node', l) == []
    requires forall l :: p < l < LEVELS ==> Group(node, l) == Group(node', l)
    requires ListingOf(Group(node', p), p) == ListingOf(Group(node, p), p) + more
    ensures Listing(node', from, top) == Listing(node, from, top) + more
    decreases top
  {
    var l := top - 1;
    if l == p {
      NothingBelow(node, from, p);
      NothingBelow(node', from, p);
    } else {
      GroupChanged(node, node', from, p, more, l);
      Associates(ListingOf(Group(node, l), l), Listing(node, from, l), more);
    }
  }

  lemma {:induction false} Associates<T>(a: seq<T>, b: seq<T>, c: seq<T>)
    ensures (a + b) + c == a + (b + c)
  {
  }

  /** The tree built from any rows is well formed, and its listing is exactly those rows. */
  lemma {:induction false} ListingOfReplay(node: Node, from: nat, rows: seq<Row>)
    requires from <= LEVELS && RowsFrom(rows, from) && WellFormed(node, from)
    ensures WellFormed(Replay(node, from, rows), from)
    ensures Listing(Replay(node, from, rows), from, LEVELS) == Listing(node, from, LEVELS) + rows
    decreases |rows|
  {
    if rows != [] {
      ListingInsert(node, from, rows[0].level, rows[0].attributes);
      ListingOfReplay(Insert(node, from, rows[0].level, rows[0].attributes), from, rows[1..]);
    }
  }

  // ----- rebuilding a tree from its listing

  lemma {:induction false} ListingLevels(node: Node, from: nat, top: nat)
    requires from <= top <= LEVELS
    ensures RowsFrom(Listing(node, from, top), from)
    decreases LEVELS - from, top, 0
  {
    if from < top {
      SiblingLevels(Group(node, top - 1), top - 1);
      ListingLevels(node, from, top - 1);
    }
  }

  lemma {:induction false} SiblingLevels(kids: seq<Node>, level: nat)
    requires level < LEVELS
    ensures RowsFrom(ListingOf(kids, level), level)
    decreases LEVELS - level, 0, |kids|
  {
    if kids != [] {
      SiblingLevels(kids[..|kids| - 1], level);
      ListingLevels(kids[|kids| - 1], level + 1, LEVELS);
    }
  }

  lemma {:induction false} ReplayAppend(node: Node, from: nat, a: seq<Row>, b: seq<Row>)
    requires RowsFrom(a, from) && RowsFrom(b, from)
    ensures RowsFrom(a + b, from)
    ensures Replay(node, from, a + b) == Replay(Replay(node, from, a), from, b)
    decreases |a|
  {
    if a == [] {
      assert a + b == b;
    } else {
      assert (a + b)[1..] == a[1..] + b;
      ReplayAppend(Insert(node, from, a[0].level, a[0].attributes), from, a[1..], b);
    }
  }

  /** Levels with no children are passed by. */
  lemma {:induction false} PassEmptyLevels(node: Node, p: nat, l: nat, level: nat, row: Attributes)
    requires p <= l <= level && forall m :: m in node.children ==> l <= m
    ensures Insert(node, p, level, row) == Insert(node, l, level, row)
    decreases l - p
  {
    if p < l {
      PassEmptyLevels(node, p + 1, l, level, row);
    }
  }

  /** The node with the last child at level `l` replaced. */
  function WithLast(node: Node, l: nat, last: Node): Node
    requires l in node.children && node.children[l] != []
  {
    node.(children := node.children[l := node.children[l][..|node.children[l]| - 1] + [last]])
  }

  function LastAt(node: Node, l: nat): Node
    requires l in node.children && node.children[l] != []
  {
    node.children[l][|node.children[l]| - 1]
  }

  /** Rows deeper than the lowest level of a node all go below its last child at that level. */
  lemma {:induction false} PushDown(node: Node, from: nat, l: nat, rows: seq<Row>)
    requires from <= l < LEVELS && l in node.children && node.children[l] != []
    requires forall m :: m in node.children ==> l <= m
    requires RowsFrom(rows, l + 1)
    ensures RowsFrom(rows, from)
    ensures Replay(node, from, rows) == WithLast(node, l, Replay(LastAt(node, l), l + 1, rows))
    decreases |rows|
  {
    if rows == [] {
      var kids := node.children[l];
      assert kids[..|kids| - 1] + [kids[|kids| - 1]] == kids;
      assert node.children[l := kids] == node.children;
    } else {
      var row := rows[0];
      PassEmptyLevels(node, from, l, row.level, row.attributes);
      var last' := Insert(LastAt(node, l), l + 1, row.level, row.attributes);
      var node' := WithLast(node, l, last');
      assert Insert(node, from, row.level, row.attributes) == node';
      PushDown(node', from, l, rows[1..]);
      var end := Replay(last', l + 1, rows[1..]);
      assert WithLast(node', l, end) == WithLast(node, l, end) by {
        assert node'.children[l][..|node'.children[l]| - 1] == node.children[l][..|node.children[l]| - 1];
      }
    }
  }

  /** The node with its children at the levels from `top` on only. */
  function Above(node: Node, top: nat): Node {
    node.(children := map l | l in node.children && top <= l :: node.children[l])
  }

  function WithGroup(node: Node, l: nat, kids: seq<Node>): Node {
    if kids == [] then node else node.(children := node.children[l := kids])
  }

  /** A sibling more: its row is appended, and the rows below it go below it. */
  lemma {:induction false} AddSibling(node: Node, from: nat, l: nat, front: seq<Node>, last: Node)
    requires from <= l < LEVELS && (forall m :: m in node.children ==> l < m) && WellFormed(last, l + 1)
    ensures var rows := Branch(last, l);
      RowsFrom(rows, from) && Replay(WithGroup(node, l, front), from, rows) == WithGroup(node, l, front + [last])
    decreases LEVELS - l, 0
  {
    var c := Listing(last, l + 1, LEVELS);
    ListingLevels(last, l + 1, LEVELS);
    var leaf := Leaf(last.attributes);
    var node2 := WithGroup(node, l, front + [leaf]);
    AppendToGroup(node, from, l, front, last.attributes);
    ReplayFirst(WithGroup(node, l, front), from, Row(l, last.attributes), c);
    ReplaceLast(node, l, front, leaf, last);
    PushDown(node2, from, l, c);
    Rebuild(last, l + 1);
  }

  lemma {:induction false} AppendToGroup(node: Node, from: nat, l: nat, front: seq<Node>, row: Attributes)
    requires from <= l && forall m :: m in node.children ==> l < m
    ensures Insert(WithGroup(node, l, front), from, l, row) == WithGroup(node, l, front + [Leaf(row)])
  {
    PassEmptyLevels(WithGroup(node, l, front), from, l, l, row);
  }

  lemma {:induction false} ReplaceLast(node: Node, l: nat, front: seq<Node>, x: Node, y: Node)
    ensures var node' := WithGroup(node, l, front + [x]);
      LastAt(node', l) == x && WithLast(node', l, y) == WithGroup(node, l, front + [y])
  {
    assert (front + [x])[..|front|] == front;
  }

  lemma {:induction false} ReplayFirst(node: Node, from: nat, row: Row, rows: seq<Row>)
    requires from <= row.level < LEVELS && RowsFrom(rows, from)
    ensures RowsFrom([row] + rows, from)
    ensures Replay(node, from, [row] + rows) == Replay(Insert(node, from, row.level, row.attributes), from, rows)
  {
    assert ([row] + rows)[1..] == rows;
  }

  lemma {:induction false} RebuildGroup(node: Node, from: nat, l: nat, kids: seq<Node>)
    requires from <= l < LEVELS && (forall m :: m in node.children ==> l < m)
    requires forall i :: 0 <= i < |kids| ==> WellFormed(kids[i], l + 1)
    ensures RowsFrom(ListingOf(kids, l), from)
    ensures Replay(node, from, ListingOf(kids, l)) == WithGroup(node, l, kids)
    decreases LEVELS - l, 1, |kids|
  {
    SiblingLevels(kids, l);
    if kids != [] {
      var n := |kids| - 1;
      var front, last := kids[..n], kids[n];
      var a, rows := ListingOf(front, l), Branch(last, l);
      assert kids == front + [last];
      LastSibling(kids, l);
      RebuildGroup(node, from, l, front);
      AddSibling(node, from, l, front, last);
      ReplayAppend(node, from, a, rows);
    }
  }

  lemma {:induction false} AboveAdds(node: Node, l: nat)
    requires l in node.children ==> node.children[l] != []
    ensures Above(node, l) == WithGroup(Above(node, l + 1), l, Group(node, l))
  {
  }

  lemma {:induction false} RebuildGroups(node: Node, from: nat, top: nat)
    requires from <= top <= LEVELS && WellFormed(node, from)
    ensures RowsFrom(Listing(node, from, top), from)
    ensures Replay(Above(node, top), from, Listing(node, from, top)) == node
    decreases LEVELS - from, 2, top
  {
    ListingLevels(node, from, top);
    if from == top {
      assert Above(node, top).children == node.children;
    } else {
      var l := top - 1;
      var kids, above := Group(node, l), Above(node, top);
      RebuildGroups(node, from, l);
      AboveAdds(node, l);
      RebuildGroup(above, from, l, kids);
      ListingLevels(node, from, l);
      ReplayBoth(above, from, ListingOf(kids, l), Listing(node, from, l), Above(node, l), node);
    }
  }

  lemma {:induction false} ReplayBoth(node: Node, from: nat, a: seq<Row>, b: seq<Row>, middle: Node, end: Node)
    requires RowsFrom(a, from) && RowsFrom(b, from)
    requires Replay(node, from, a) == middle && Replay(middle, from, b) == end
    ensures RowsFrom(a + b, from) && Replay(node, from, a + b) == end
  {
    ReplayAppend(node, from, a, b);
  }

  /** Every well-formed tree is rebuilt from its own listing. */
  lemma {:induction false} Rebuild(node: Node, from: nat)
    requires from <= LEVELS && WellFormed(node, from)
    ensures RowsFrom(Listing(node, from, LEVELS), from)
    ensures Replay(Leaf(node.attributes), from, Listing(node, from, LEVELS)) == node
    decreases LEVELS - from, 3
  {
    RebuildGroups(node, from, LEVELS);
    assert Above(node, LEVELS) == Leaf(node.attributes);
  }

  // ----- what the answer keeps

  /** The rows found in the answer. */
  function KeptRows(tree: Node): seq<Row> {
    if Group(tree, 0) != [] then Branch(Answer(tree), 0)
    else Listing(tree, 0, LEVELS)
  }

  lemma {:induction false} ArchivesLast(node: Node, top: nat)
    requires 1 <= top <= LEVELS
    ensures Listing(node, 0, top) ==
            Listing(node, 1, top) + ListingOf(Group(node, 0), 0)
    decreases top
  {
    if top > 1 {
      ArchivesLast(node, top - 1);
    }
  }

  lemma {:induction false} FirstSibling(kids: seq<Node>, level: nat)
    requires level < LEVELS && kids != []
    ensures ListingOf(kids, level) == Branch(kids[0], level) + ListingOf(kids[1..], level)
    decreases |kids|
  {
    var n := |kids| - 1;
    LastSibling(kids, level);
    if n > 0 {
      var front, middle, last := kids[..n], kids[1..n], kids[n];
      assert front[1..] == middle && kids[1..][..n - 1] == middle;
      FirstSibling(front, level);
      LastSibling(kids[1..], level);
      Associates(Branch(kids[0], level), ListingOf(middle, level), Branch(last, level));
    }
  }

  /** The listing has no archive, or starts with its only one. */
  predicate OneArchive(rows: seq<Row>) {
    forall i :: 0 <= i < |rows| && rows[i].level == 0 ==> i == 0 && forall j :: 0 < j < |rows| ==> rows[j].level > 0
  }

  /** Of some rows deeper than archives, the branch of an archive and the branches of others, the
      branch is all if and only if its archive comes first and is the only one. */
  lemma {:induction false} BranchIsAll(deeper: seq<Row>, branch: seq<Row>, others: seq<Row>)
    requires RowsFrom(deeper, 1) && branch != [] && branch[0].level == 0 && RowsFrom(branch[1..], 1)
    requires others == [] || others[0].level == 0
    ensures branch == deeper + (branch + others) <==> OneArchive(deeper + (branch + others))
  {
    var rows := deeper + (branch + others);
    if deeper == [] && others == [] {
      assert rows == branch;
      assert forall j :: 0 < j < |rows| ==> rows[j] == branch[1..][j - 1];
    } else {
      assert |rows| > |branch|;
      assert rows[|deeper|].level == 0;
      assert others != [] ==> rows[|deeper| + |branch|].level == 0;
    }
  }

  lemma {:induction false} KeptOfArchives(deeper: seq<Row>, archives: seq<Node>)
    requires archives != [] && RowsFrom(deeper, 1)
    ensures var rows := deeper + ListingOf(archives, 0);
      Branch(archives[0], 0) == rows <==> OneArchive(rows)
  {
    FirstSibling(archives, 0);
    ListingLevels(archives[0], 1, LEVELS);
    if |archives| > 1 {
      FirstSibling(archives[1..], 0);
    }
    BranchIsAll(deeper, Branch(archives[0], 0), ListingOf(archives[1..], 0));
  }

  lemma {:induction false} KeptRowsIff(tree: Node, rows: seq<Row>)
    requires WellFormed(tree, 0) && Listing(tree, 0, LEVELS) == rows
    ensures KeptRows(tree) == rows <==> OneArchive(rows)
  {
    var deeper := Listing(tree, 1, LEVELS);
    ArchivesLast(tree, LEVELS);
    ListingLevels(tree, 1, LEVELS);
    if Group(tree, 0) != [] {
      KeptOfArchives(deeper, Group(tree, 0));
    } else {
      assert deeper + [] == deeper;
    }
  }

  /** The answer holds every row if and only if there is no archive row, or the only one is the
      first row. */
  lemma {:induction false} AnswerKeepsAllIff(rows: seq<Row>)
    requires RowsFrom(rows, 0)
    ensures KeptRows(Replay(Leaf(map[]), 0, rows)) == rows <==> OneArchive(rows)
  {
    NothingBelow(Leaf(map[]), 0, LEVELS);
    ListingOfReplay(Leaf(map[]), 0, rows);
    assert [] + rows == rows;
    KeptRowsIff(Replay(Leaf(map[]), 0, rows), rows);
  }

  /** Row `i` is the first archive, and the rows up to `j` are those below it. */
  ghost predicate FirstArchive(rows: seq<Row>, i: nat, j: nat) {
    && i < j <= |rows| && rows[i].level == 0
    && (forall k :: 0 <= k < i ==> rows[k].level > 0)
    && (forall k :: i < k < j ==> rows[k].level > 0)
    && (j < |rows| ==> rows[j].level == 0)
  }

  lemma {:induction false} BranchPlace(deeper: seq<Row>, branch: seq<Row>, others: seq<Row>, i: nat, j: nat)
    requires RowsFrom(deeper, 1) && branch != [] && branch[0].level == 0 && RowsFrom(branch[1..], 1)
    requires others == [] || others[0].level == 0
    requires FirstArchive(deeper + (branch + others), i, j)
    ensures i == |deeper| && j == |deeper| + |branch| && (deeper + (branch + others))[i..j] == branch
  {
    var rows := deeper + (branch + others);
    assert rows[|deeper|] == branch[0];
    assert i == |deeper|;
    assert forall k :: |deeper| < k < |deeper| + |branch| ==> rows[k] == branch[1..][k - |deeper| - 1];
    assert others != [] ==> rows[|deeper| + |branch|] == others[0];
  }

  lemma {:induction false} ArchivePlace(deeper: seq<Row>, archives: seq<Node>, i: nat, j: nat)
    requires RowsFrom(deeper, 1) && FirstArchive(deeper + ListingOf(archives, 0), i, j)
    ensures archives != [] && (deeper + ListingOf(archives, 0))[i..j] == Branch(archives[0], 0)
  {
    if archives != [] {
      FirstSibling(archives, 0);
      ListingLevels(archives[0], 1, LEVELS);
      if |archives| > 1 {
        FirstSibling(archives[1..], 0);
      }
      BranchPlace(deeper, Branch(archives[0], 0), ListingOf(archives[1..], 0), i, j);
    }
  }

  lemma {:induction false} AnswerIsBranch(tree: Node, rows: seq<Row>, i: nat, j: nat)
    requires WellFormed(tree, 0) && Listing(tree, 0, LEVELS) == rows && FirstArchive(rows, i, j)
    ensures Group(tree, 0) != [] && rows[i..j] == Branch(Group(tree, 0)[0], 0)
  {
    ArchivesLast(tree, LEVELS);
    ListingLevels(tree, 1, LEVELS);
    ArchivePlace(Listing(tree, 1, LEVELS), Group(tree, 0), i, j);
  }

  lemma {:induction false} BranchRows(rows: seq<Row>, i: nat, j: nat, archive: Node)
    requires i < j <= |rows| && rows[i..j] == Branch(archive, 0)
    ensures archive.attributes == rows[i].attributes && Listing(archive, 1, LEVELS) == rows[i + 1..j]
  {
    assert rows[i..j][0] == rows[i] && rows[i..j][1..] == rows[i + 1..j];
  }

  /** What is handed out is the first archive of the rows, with exactly the rows below it. */
  lemma {:induction false} AnswerIs(rows: seq<Row>, i: nat, j: nat)
    requires RowsFrom(rows, 0) && FirstArchive(rows, i, j)
    ensures var a := Answer(Replay(Leaf(map[]), 0, rows));
      a.attributes == rows[i].attributes && Listing(a, 1, LEVELS) == rows[i + 1..j]
  {
    var tree := TreeOf(rows);
    AnswerIsBranch(tree, rows, i, j);
    BranchRows(rows, i, j, Answer(tree));
  }

  lemma {:induction false} ArchiveShows(tree: Node, rows: seq<Row>)
    requires WellFormed(tree, 0) && Listing(tree, 0, LEVELS) == rows && Group(tree, 0) != []
    ensures exists k :: 0 <= k < |rows| && rows[k].level == 0
  {
    ArchivesLast(tree, LEVELS);
    FirstSibling(Group(tree, 0), 0);
    assert rows[|Listing(tree, 1, LEVELS)|].level == 0;
  }

  /** Without any archive it is the whole tree. */
  lemma {:induction false} AnswerIsAll(rows: seq<Row>)
    requires RowsFrom(rows, 1)
    ensures var tree := Replay(Leaf(map[]), 0, rows);
      Answer(tree) == tree && Listing(tree, 0, LEVELS) == rows
  {
    var tree := TreeOf(rows);
    if Group(tree, 0) != [] {
      ArchiveShows(tree, rows);
    }
  }

  /** The tree of some rows is well formed, and lists them. */
  lemma {:induction false} TreeOf(rows: seq<Row>) returns (tree: Node)
    requires RowsFrom(rows, 0)
    ensures tree == Replay(Leaf(map[]), 0, rows)
    ensures WellFormed(tree, 0) && Listing(tree, 0, LEVELS) == rows
  {
    var root := Leaf(map[]);
    tree := Replay(root, 0, rows);
    EmptyRoot(root);
    ListingOfReplay(root, 0, rows);
    NothingInFront(Listing(root, 0, LEVELS), rows);
  }

  lemma {:induction false} EmptyRoot(root: Node)
    requires root.children == map[]
    ensures WellFormed(root, 0) && Listing(root, 0, LEVELS) == []
  {
    NothingBelow(root, 0, LEVELS);
  }

  lemma {:induction false} NothingInFront(front: seq<Row>, rows: seq<Row>)
    requires front == []
    ensures front + rows == rows
  {
  }
}
