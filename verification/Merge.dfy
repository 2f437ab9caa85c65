/** `merge_trees`: merging any number of trees with a heap, directory by directory. */
module Merge {
  import opened Repo
  import opened NameOrder

  /** The comparison of nodes, as "at most". */
  type Cmp = (Node, Node) -> bool

  ghost predicate TotalPreorder(le: Cmp)
  {
    && (forall a, b :: le(a, b) || le(b, a))
    && (forall a, b, c :: le(a, b) && le(b, c) ==> le(a, c))
  }

  // ---------------------------------------------------------------- what a merge is

  /** A tree as stored: names strictly ascending, and a readable subtree for every directory. */
  ghost predicate Stored(nodes: seq<Node>)
    decreases nodes
  {
    && Ascending(nodes)
    && forall n :: n in nodes && n.nodeType.Dir? ==>
         n.subtree.Some? && n.subtree.value.TreeBlob? && Stored(n.subtree.value.nodes)
  }

  ghost predicate HasName(nodes: seq<Node>, name: Name) { exists n :: n in nodes && n.name == name }

  ghost function Namesakes(trees: set<seq<Node>>, name: Name): set<Node>
  {
    set t, n | t in trees && n in t && n.name == name :: n
  }

  ghost function NodeSet(nodes: seq<Node>): set<Node> { set n | n in nodes }

  ghost function Subtrees(nodes: set<Node>): set<seq<Node>>
  {
    set n | n in nodes && n.nodeType.Dir? && n.subtree.Some? && n.subtree.value.TreeBlob? :: n.subtree.value.nodes
  }

  /** `w` is as large as any of the nodes. */
  ghost predicate Largest(le: Cmp, nodes: set<Node>, w: Node)
  {
    w in nodes && forall n :: n in nodes ==> le(n, w)
  }

  /** r is the largest of the nodes; if that is a directory, with the merge of all directories in it. */
  ghost predicate Wins(le: Cmp, nodes: set<Node>, r: Node)
    decreases r, 1
  {
    exists w :: Largest(le, nodes, w) &&
      if w.nodeType.Dir? then
        && r.subtree.Some? && r.subtree.value.TreeBlob? && r == w.(subtree := r.subtree)
        && IsMerge(le, Subtrees(nodes), r.subtree.value.nodes)
      else r == w
  }

  /** One node for each name in any of the trees, in ascending order, each the winner of its namesakes. */
  ghost predicate IsMerge(le: Cmp, trees: set<seq<Node>>, result: seq<Node>)
    decreases result, 0
  {
    && Ascending(result)
    && (forall t, n :: t in trees && n in t ==> HasName(result, n.name))
    && (forall r :: r in result ==> Wins(le, Namesakes(trees, r.name), r))
  }

  // ---------------------------------------------------------------- totals

  datatype Summary = Summary(
    filesUnmodified: nat, totalFiles: nat, totalBytes: nat,
    dirsUnmodified: nat, dirsChanged: nat, totalDirs: nat, totalDirsize: nat)

  /** Files and directories with their sizes, and how many of the directories are unmodified. */
  datatype Totals = Totals(files: nat, bytes: nat, dirs: nat, dirsize: nat, same: nat)

  function Plus(a: Totals, b: Totals): Totals
  {
    Totals(a.files + b.files, a.bytes + b.bytes, a.dirs + b.dirs, a.dirsize + b.dirsize, a.same + b.same)
  }

  /** The files and directories below the nodes, which are merged from the trees; `size` is the size of a stored
      tree. */
  ghost function Count(size: seq<Node> -> nat, trees: set<seq<Node>>, nodes: seq<Node>): Totals
    decreases nodes, 0
  {
    if nodes == [] then Totals(0, 0, 0, 0, 0)
    else
      var n := nodes[|nodes| - 1];
      Plus(Count(size, trees, nodes[..|nodes| - 1]), CountNode(size, Namesakes(trees, n.name), n))
  }

  ghost function CountNode(size: seq<Node> -> nat, all: set<Node>, n: Node): Totals
    decreases n, 1
  {
    if n.nodeType.Dir? then
      if n.subtree.Some? && n.subtree.value.TreeBlob? then CountTree(size, Subtrees(all), n.subtree.value.nodes)
      else Totals(0, 0, 1, 0, 0)
    else Totals(1, n.meta.size, 0, 0, 0)
  }

  /** A merged tree is unmodified if it is one of those it was merged from, or if there is nothing in it. */
  ghost function CountTree(size: seq<Node> -> nat, trees: set<seq<Node>>, nodes: seq<Node>): Totals
    decreases nodes, 1
  {
    Plus(Count(size, trees, nodes), Totals(0, 0, 1, size(nodes), if nodes in trees || nodes == [] then 1 else 0))
  }

  /** The summary has grown by exactly the totals; files are unmodified, directories unmodified or changed. */
  ghost predicate Grew(before: Summary, after: Summary, t: Totals)
  {
    && after.filesUnmodified == before.filesUnmodified + t.files
    && after.totalFiles == before.totalFiles + t.files
    && after.totalBytes == before.totalBytes + t.bytes
    && after.totalDirs == before.totalDirs + t.dirs
    && after.dirsUnmodified == before.dirsUnmodified + t.same
    && after.dirsChanged + t.same == before.dirsChanged + t.dirs
    && after.totalDirsize == before.totalDirsize + t.dirsize
  }

  /** The tree and all trees below it were saved. */
  ghost predicate SavedAll(saved: set<BlobId>, nodes: seq<Node>)
    decreases nodes
  {
    TreeBlob(nodes) in saved && SavedBelow(saved, nodes)
  }

  ghost predicate SavedBelow(saved: set<BlobId>, nodes: seq<Node>)
    decreases nodes, 0
  {
    forall n :: n in nodes && n.nodeType.Dir? && n.subtree.Some? && n.subtree.value.TreeBlob? ==>
      TreeBlob(n.subtree.value.nodes) in saved && SavedBelow(saved, n.subtree.value.nodes)
  }

  lemma {:induction false} SavedMore(saved: set<BlobId>, more: set<BlobId>, nodes: seq<Node>)
    requires SavedBelow(saved, nodes) && saved <= more
    ensures SavedBelow(more, nodes)
    decreases nodes
  {
    forall n | n in nodes && n.nodeType.Dir? && n.subtree.Some? && n.subtree.value.TreeBlob?
      ensures SavedBelow(more, n.subtree.value.nodes)
    {
      SavedMore(saved, more, n.subtree.value.nodes);
    }
  }

  // ---------------------------------------------------------------- the heap

  datatype Elem = Elem(node: Node, num: nat)

  ghost predicate InHeap(heap: seq<Elem>, i: nat) { exists e :: e in heap && e.num == i }

  ghost predicate DistinctNums(heap: seq<Elem>)
  {
    forall a, b :: 0 <= a < b < |heap| ==> heap[a].num != heap[b].num
  }

  /** e is the node its tree has handed out last. */
  ghost predicate Last(trees: seq<seq<Node>>, pos: seq<nat>, e: Elem)
    requires |pos| == |trees| && forall i :: 0 <= i < |trees| ==> pos[i] <= |trees[i]|
  {
    e.num < |trees| && 0 < pos[e.num] && e.node == trees[e.num][pos[e.num] - 1]
  }

  /** Positions and heap agree, and every tree with nodes left has one in the heap, except tree `but`. */
  ghost predicate HeapOk(trees: seq<seq<Node>>, pos: seq<nat>, heap: seq<Elem>, but: int)
  {
    && |pos| == |trees| && (forall i :: 0 <= i < |trees| ==> pos[i] <= |trees[i]|)
    && DistinctNums(heap) && (forall e :: e in heap ==> Last(trees, pos, e) && e.num != but)
    && forall i: nat :: i < |trees| && i != but && pos[i] < |trees[i]| ==> InHeap(heap, i)
  }

  ghost predicate NoneBelow(heap: seq<Elem>, name: Name) { forall e :: e in heap ==> !Less(e.node.name, name) }

  /** What was handed out is below `bound`, in the group, or waits in the heap. */
  ghost predicate Seen(trees: seq<seq<Node>>, pos: seq<nat>, heap: seq<Elem>, group: seq<Node>, bound: Name)
    requires |pos| == |trees| && forall i :: 0 <= i < |trees| ==> pos[i] <= |trees[i]|
  {
    forall i: nat, k: nat :: i < |trees| && k < pos[i] ==>
      Less(trees[i][k].name, bound) || trees[i][k] in group || (k == pos[i] - 1 && InHeap(heap, i))
  }

  /** Between two steps: `group` holds the nodes named `bound` met so far, tree `num` the last of them. */
  ghost predicate Grouping(trees: seq<seq<Node>>, pos: seq<nat>, heap: seq<Elem>, num: nat, group: seq<Node>,
                           bound: Name)
  {
    && HeapOk(trees, pos, heap, num) && NoneBelow(heap, bound) && Seen(trees, pos, heap, group, bound)
    && num < |trees| && 0 < pos[num] && trees[num][pos[num] - 1].name == bound
    && group != [] && forall n :: n in group ==> n.name == bound && exists i :: 0 <= i < |trees| && n in trees[i]
  }

  ghost predicate AllAscending(trees: seq<seq<Node>>) { forall t :: t in trees ==> Ascending(t) }

  lemma {:induction false} PushHeap(trees: seq<seq<Node>>, pos: seq<nat>, heap: seq<Elem>, num: nat)
    requires HeapOk(trees, pos, heap, num) && num < |trees| && pos[num] < |trees[num]|
    ensures HeapOk(trees, pos[num := pos[num] + 1], heap + [Elem(trees[num][pos[num]], num)], -1)
  {
    var pos', e := pos[num := pos[num] + 1], Elem(trees[num][pos[num]], num);
    var heap' := heap + [e];
    assert e in heap';
    forall x | x in heap' ensures Last(trees, pos', x) {
      if x != e { assert x in heap; }
    }
    forall a, b | 0 <= a < b < |heap'| ensures heap'[a].num != heap'[b].num {
      assert heap'[a] in heap;
    }
    forall i: nat | i < |trees| && pos'[i] < |trees[i]| ensures InHeap(heap', i) {
      if i != num {
        var x :| x in heap && x.num == i;
        assert x in heap';
      }
    }
  }

  lemma {:induction false} StaysInHeap(heap: seq<Elem>, e: Elem, i: nat)
    requires InHeap(heap, i)
    ensures InHeap(heap + [e], i)
  {
    var x :| x in heap && x.num == i;
    assert x in heap + [e];
  }

  lemma {:induction false} PushSeen(trees: seq<seq<Node>>, pos: seq<nat>, heap: seq<Elem>, num: nat, group: seq<Node>,
                                    bound: Name)
    requires Grouping(trees, pos, heap, num, group, bound) && pos[num] < |trees[num]|
    ensures HeapOk(trees, pos[num := pos[num] + 1], heap + [Elem(trees[num][pos[num]], num)], -1)
    ensures Seen(trees, pos[num := pos[num] + 1], heap + [Elem(trees[num][pos[num]], num)], group, bound)
  {
    PushHeap(trees, pos, heap, num);
    var pos', e := pos[num := pos[num] + 1], Elem(trees[num][pos[num]], num);
    var heap' := heap + [e];
    assert e in heap';
    forall i: nat, k: nat | i < |trees| && k < pos'[i]
      ensures Less(trees[i][k].name, bound) || trees[i][k] in group || (k == pos'[i] - 1 && InHeap(heap', i))
    {
      if i == num && k == pos[num] {
        assert InHeap(heap', i);
      } else if k == pos[i] - 1 && InHeap(heap, i) {
        var x :| x in heap && x.num == i;
        assert x.num != num;
        StaysInHeap(heap, e, i);
      }
    }
  }

  lemma {:induction false} PushNoneBelow(trees: seq<seq<Node>>, pos: seq<nat>, heap: seq<Elem>, num: nat,
                                         group: seq<Node>, bound: Name)
    requires Grouping(trees, pos, heap, num, group, bound) && pos[num] < |trees[num]| && AllAscending(trees)
    ensures NoneBelow(heap + [Elem(trees[num][pos[num]], num)], bound)
  {
    assert trees[num] in trees;
    var t := trees[num];
    assert Less(t[pos[num] - 1].name, t[pos[num]].name);
    LessTotal(bound, t[pos[num]].name);
  }

  /** The state in the middle of a step: the next node of tree `num` is in the heap too, if there is one. */
  ghost predicate Refilled(trees: seq<seq<Node>>, pos: seq<nat>, heap: seq<Elem>, group: seq<Node>, bound: Name)
  {
    && HeapOk(trees, pos, heap, -1) && NoneBelow(heap, bound) && Seen(trees, pos, heap, group, bound)
    && forall n :: n in group ==> n.name == bound && exists i :: 0 <= i < |trees| && n in trees[i]
  }

  lemma {:induction false} NoRefill(trees: seq<seq<Node>>, pos: seq<nat>, heap: seq<Elem>, num: nat, group: seq<Node>,
                                    bound: Name)
    requires Grouping(trees, pos, heap, num, group, bound) && pos[num] == |trees[num]|
    ensures Refilled(trees, pos, heap, group, bound)
  {
  }

  lemma {:induction false} Refill(trees: seq<seq<Node>>, pos: seq<nat>, heap: seq<Elem>, num: nat, group: seq<Node>,
                                  bound: Name)
    requires Grouping(trees, pos, heap, num, group, bound) && pos[num] < |trees[num]| && AllAscending(trees)
    ensures Refilled(trees, pos[num := pos[num] + 1], heap + [Elem(trees[num][pos[num]], num)], group, bound)
  {
    PushSeen(trees, pos, heap, num, group, bound);
    PushNoneBelow(trees, pos, heap, num, group, bound);
  }

  // ---------------------------------------------------------------- taking from the heap

  /** One of the elements with the least name: the heap does not say which. */
  ghost predicate Least(heap: seq<Elem>, k: nat)
  {
    k < |heap| && forall e :: e in heap ==> !Less(e.node.name, heap[k].node.name)
  }

  lemma {:induction false} LeastExists(heap: seq<Elem>) returns (k: nat)
    requires heap != []
    ensures Least(heap, k)
    decreases |heap|
  {
    if |heap| == 1 {
      k := 0;
      LessIrreflexive(heap[0].node.name);
    } else {
      var j := LeastExists(heap[1..]);
      var a, b := heap[0].node.name, heap[1..][j].node.name;
      LessTotal(a, b);
      LessIrreflexive(a);
      k := if Less(a, b) then 0 else j + 1;
      forall e | e in heap ensures !Less(e.node.name, heap[k].node.name) {
        if e in heap[1..] && Less(a, b) && Less(e.node.name, a) { LessTrans(e.node.name, a, b); }
      }
    }
  }

  function Without(heap: seq<Elem>, k: nat): seq<Elem>
    requires k < |heap|
  {
    heap[..k] + heap[k + 1..]
  }

  lemma {:induction false} WithoutIn(heap: seq<Elem>, k: nat, e: Elem)
    requires k < |heap| && DistinctNums(heap)
    ensures e in Without(heap, k) <==> e in heap && e.num != heap[k].num
    ensures DistinctNums(Without(heap, k))
  {
    var r := Without(heap, k);
    forall a | 0 <= a < |r| ensures r[a] == heap[if a < k then a else a + 1] {}
    if e in heap && e.num != heap[k].num {
      var a :| 0 <= a < |heap| && heap[a] == e;
      assert r[if a < k then a else a - 1] == e;
    }
    if e in r {
      var a :| 0 <= a < |r| && r[a] == e;
      assert heap[if a < k then a else a + 1] == e;
    }
  }

  lemma {:induction false} PopHeap(trees: seq<seq<Node>>, pos: seq<nat>, heap: seq<Elem>, k: nat)
    requires HeapOk(trees, pos, heap, -1) && Least(heap, k)
    ensures HeapOk(trees, pos, Without(heap, k), heap[k].num) && NoneBelow(Without(heap, k), heap[k].node.name)
    ensures heap[k] in heap && Last(trees, pos, heap[k])
  {
    var r, num := Without(heap, k), heap[k].num;
    assert heap[k] in heap;
    forall e ensures e in r <==> e in heap && e.num != num { WithoutIn(heap, k, e); }
    WithoutIn(heap, k, heap[k]);
    forall i: nat | i < |trees| && i != num && pos[i] < |trees[i]| ensures InHeap(r, i) {
      var e :| e in heap && e.num == i;
      assert e in r;
    }
  }

  lemma {:induction false} PopSeen(trees: seq<seq<Node>>, pos: seq<nat>, heap: seq<Elem>, k: nat, group: seq<Node>,
                                   bound: Name, group': seq<Node>)
    requires HeapOk(trees, pos, heap, -1) && Least(heap, k) && Seen(trees, pos, heap, group, bound)
    requires heap[k].node in group'
    requires forall n :: n in group ==> n in group' || Less(n.name, heap[k].node.name)
    requires forall name :: Less(name, bound) ==> Less(name, heap[k].node.name)
    ensures Seen(trees, pos, Without(heap, k), group', heap[k].node.name)
  {
    var e, r := heap[k], Without(heap, k);
    assert e in heap;
    forall i: nat, j: nat | i < |trees| && j < pos[i]
      ensures Less(trees[i][j].name, e.node.name) || trees[i][j] in group' || (j == pos[i] - 1 && InHeap(r, i))
    {
      if j == pos[i] - 1 && InHeap(heap, i) && i != e.num {
        var x :| x in heap && x.num == i;
        WithoutIn(heap, k, x);
      }
    }
  }

  lemma {:induction false} PopJoins(trees: seq<seq<Node>>, pos: seq<nat>, heap: seq<Elem>, k: nat, group: seq<Node>,
                                    bound: Name)
    requires Refilled(trees, pos, heap, group, bound) && Least(heap, k) && heap[k].node.name == bound
    ensures Grouping(trees, pos, Without(heap, k), heap[k].num, group + [heap[k].node], bound)
  {
    PopHeap(trees, pos, heap, k);
    PopSeen(trees, pos, heap, k, group, bound, group + [heap[k].node]);
  }

  lemma {:induction false} PopStarts(trees: seq<seq<Node>>, pos: seq<nat>, heap: seq<Elem>, k: nat, group: seq<Node>,
                                     bound: Name)
    requires Refilled(trees, pos, heap, group, bound) && Least(heap, k) && heap[k].node.name != bound
    ensures Less(bound, heap[k].node.name)
    ensures Grouping(trees, pos, Without(heap, k), heap[k].num, [heap[k].node], heap[k].node.name)
  {
    var name := heap[k].node.name;
    PopHeap(trees, pos, heap, k);
    LessTotal(bound, name);
    forall x | Less(x, bound) ensures Less(x, name) { LessTrans(x, bound, name); }
    PopSeen(trees, pos, heap, k, group, bound, [heap[k].node]);
  }

  // ---------------------------------------------------------------- a group is complete

  /** A node that is neither below the bound nor in the group comes no earlier than the least element
      of the heap. */
  lemma {:induction false} Later(trees: seq<seq<Node>>, pos: seq<nat>, heap: seq<Elem>, group: seq<Node>, bound: Name,
                                 i: nat, j: nat)
    requires Refilled(trees, pos, heap, group, bound) && AllAscending(trees)
    requires i < |trees| && j < |trees[i]| && !Less(trees[i][j].name, bound) && trees[i][j] !in group
    ensures exists e :: e in heap && !Less(trees[i][j].name, e.node.name)
  {
    assert trees[i] in trees;
    if j < pos[i] {
      var e :| e in heap && e.num == i;
      LessIrreflexive(e.node.name);
    } else {
      var e :| e in heap && e.num == i;
      assert Less(trees[i][pos[i] - 1].name, trees[i][j].name);
      LessTotal(e.node.name, trees[i][j].name);
    }
  }

  ghost function SetOf(trees: seq<seq<Node>>): set<seq<Node>> { set t | t in trees }

  /** With nothing of that name left in the heap the group is all there is of its name. */
  lemma {:induction false} GroupIsAll(trees: seq<seq<Node>>, pos: seq<nat>, heap: seq<Elem>, group: seq<Node>,
                                      bound: Name)
    requires Refilled(trees, pos, heap, group, bound) && AllAscending(trees)
    requires forall e :: e in heap ==> Less(bound, e.node.name)
    ensures Namesakes(SetOf(trees), bound) == NodeSet(group)
  {
    forall t, n | t in SetOf(trees) && n in t && n.name == bound ensures n in group {
      var i :| 0 <= i < |trees| && trees[i] == t;
      var j :| 0 <= j < |t| && t[j] == n;
      LessIrreflexive(bound);
      if n !in group {
        Later(trees, pos, heap, group, bound, i, j);
      }
    }
    forall n | n in group ensures n in Namesakes(SetOf(trees), bound) {
      var i :| 0 <= i < |trees| && n in trees[i];
      assert trees[i] in SetOf(trees);
    }
  }

  /** The result so far: everything below `bound`. */
  ghost predicate Done(le: Cmp, trees: seq<seq<Node>>, out: seq<Node>, bound: Name)
  {
    && Ascending(out) && (forall r :: r in out ==> Less(r.name, bound) && Wins(le, Namesakes(SetOf(trees), r.name), r))
    && forall t, n :: t in trees && n in t && Less(n.name, bound) ==> HasName(out, n.name)
  }

  /** ... and everything up to and including `bound`, once its group is merged. */
  ghost predicate DoneUpTo(le: Cmp, trees: seq<seq<Node>>, out: seq<Node>, bound: Name)
  {
    && Ascending(out) && (forall r :: r in out ==> !Less(bound, r.name) && Wins(le, Namesakes(SetOf(trees), r.name), r))
    && forall t, n :: t in trees && n in t && !Less(bound, n.name) ==> HasName(out, n.name)
  }

  lemma {:induction false} AscendingMore(out: seq<Node>, r: Node)
    requires Ascending(out) && forall x :: x in out ==> Less(x.name, r.name)
    ensures Ascending(out + [r])
  {
    var all := out + [r];
    forall i, j | 0 <= i < j < |all| ensures Less(all[i].name, all[j].name) {
      assert all[i] == out[i] && all[i] in out;
    }
  }

  lemma {:induction false} AddWinner(le: Cmp, trees: seq<seq<Node>>, out: seq<Node>, bound: Name, r: Node)
    requires Done(le, trees, out, bound) && r.name == bound && Wins(le, Namesakes(SetOf(trees), bound), r)
    ensures DoneUpTo(le, trees, out + [r], bound)
  {
    AscendingMore(out, r);
    forall x | x in out + [r] ensures !Less(bound, x.name) { LessTotal(bound, x.name); }
    forall t, n | t in trees && n in t && !Less(bound, n.name) ensures HasName(out + [r], n.name) {
      LessTotal(bound, n.name);
      if n.name == bound { assert r in out + [r]; }
      else {
        var x :| x in out && x.name == n.name;
        assert x in out + [r];
      }
    }
  }

  /** Nothing lies between the group and the least element of the heap. */
  lemma {:induction false} NextBound(le: Cmp, trees: seq<seq<Node>>, pos: seq<nat>, heap: seq<Elem>, k: nat,
                                     group: seq<Node>, bound: Name, out: seq<Node>)
    requires Refilled(trees, pos, heap, group, bound) && AllAscending(trees) && Least(heap, k) &&
               Less(bound, heap[k].node.name)
    requires DoneUpTo(le, trees, out, bound)
    ensures Done(le, trees, out, heap[k].node.name)
  {
    var name := heap[k].node.name;
    forall r | r in out ensures Less(r.name, name) {
      LessTotal(bound, r.name);
      if r.name != bound { LessTrans(r.name, bound, name); }
    }
    forall t, n | t in trees && n in t && Less(n.name, name) ensures HasName(out, n.name) {
      var i :| 0 <= i < |trees| && trees[i] == t;
      var j :| 0 <= j < |t| && t[j] == n;
      NotBetween(trees, pos, heap, k, group, bound, i, j);
    }
  }

  lemma {:induction false} NotBetween(trees: seq<seq<Node>>, pos: seq<nat>, heap: seq<Elem>, k: nat, group: seq<Node>,
                                      bound: Name, i: nat, j: nat)
    requires Refilled(trees, pos, heap, group, bound) && AllAscending(trees) && Least(heap, k)
    requires i < |trees| && j < |trees[i]| && Less(trees[i][j].name, heap[k].node.name)
    ensures !Less(bound, trees[i][j].name)
  {
    var name, x := heap[k].node.name, trees[i][j].name;
    LessTotal(bound, x);
    if !Less(x, bound) && trees[i][j] !in group {
      Later(trees, pos, heap, group, bound, i, j);
      var e :| e in heap && !Less(x, e.node.name);
      LessTotal(x, e.node.name);
      if x != e.node.name { LessTrans(e.node.name, x, name); }
    }
  }

  /** An empty heap: everything is done. */
  lemma {:induction false} AllDone(le: Cmp, trees: seq<seq<Node>>, pos: seq<nat>, group: seq<Node>, bound: Name,
                                   out: seq<Node>)
    requires Refilled(trees, pos, [], group, bound) && AllAscending(trees) && DoneUpTo(le, trees, out, bound)
    ensures IsMerge(le, SetOf(trees), out)
  {
    forall t, n | t in SetOf(trees) && n in t ensures HasName(out, n.name) {
      var i :| 0 <= i < |trees| && trees[i] == t;
      var j :| 0 <= j < |t| && t[j] == n;
      LessTotal(bound, n.name);
      if !Less(n.name, bound) && n !in group { Later(trees, pos, [], group, bound, i, j); }
    }
  }

  // ---------------------------------------------------------------- the start

  ghost predicate FirstsOut(trees: seq<seq<Node>>, pos: seq<nat>)
  {
    |pos| == |trees| && forall i :: 0 <= i < |trees| ==> pos[i] == if trees[i] == [] then 0 else 1
  }

  lemma {:induction false} FirstsSeen(trees: seq<seq<Node>>, pos: seq<nat>, heap: seq<Elem>, k: nat)
    requires FirstsOut(trees, pos) && HeapOk(trees, pos, heap, -1) && Least(heap, k)
    requires forall i: nat :: i < |trees| && trees[i] != [] ==> InHeap(heap, i)
    ensures Grouping(trees, pos, Without(heap, k), heap[k].num, [heap[k].node], heap[k].node.name)
  {
    PopHeap(trees, pos, heap, k);
    PopSeen(trees, pos, heap, k, [], heap[k].node.name, [heap[k].node]);
  }

  lemma {:induction false} FirstsDone(le: Cmp, trees: seq<seq<Node>>, pos: seq<nat>, heap: seq<Elem>, k: nat)
    requires FirstsOut(trees, pos) && HeapOk(trees, pos, heap, -1) && Least(heap, k) && AllAscending(trees)
    requires forall i: nat :: i < |trees| && trees[i] != [] ==> InHeap(heap, i)
    ensures Done(le, trees, [], heap[k].node.name)
  {
    forall t, n | t in trees && n in t ensures !Less(n.name, heap[k].node.name) {
      var i :| 0 <= i < |trees| && trees[i] == t;
      var j :| 0 <= j < |t| && t[j] == n;
      var e :| e in heap && e.num == i;
      assert e.node == t[0];
      if Less(n.name, heap[k].node.name) && j > 0 {
        LessTrans(t[0].name, n.name, heap[k].node.name);
      }
    }
  }

  method FillHeap(trees: seq<seq<Node>>) returns (pos: seq<nat>, heap: seq<Elem>)
    ensures FirstsOut(trees, pos) && HeapOk(trees, pos, heap, -1)
    ensures forall i: nat :: i < |trees| && trees[i] != [] ==> InHeap(heap, i)
  {
    pos, heap := [], [];
    for num := 0 to |trees|
      invariant FirstsOut(trees[..num], pos) && DistinctNums(heap)
      invariant forall e :: e in heap ==> e.num < num && trees[e.num] != [] && e.node == trees[e.num][0]
      invariant forall i: nat :: i < num && trees[i] != [] ==> InHeap(heap, i)
    {
      ghost var before := heap;
      if trees[num] != [] {
        pos, heap := pos + [1], heap + [Elem(trees[num][0], num)];
        assert Elem(trees[num][0], num) in heap;
        forall i: nat | i < num && trees[i] != [] ensures InHeap(heap, i) {
          StaysInHeap(before, Elem(trees[num][0], num), i);
        }
        forall a, b | 0 <= a < b < |heap| ensures heap[a].num != heap[b].num { assert heap[a] in before; }
      } else {
        pos := pos + [0];
      }
    }
    assert trees[..|trees|] == trees;
  }

  method PopLeast(heap: seq<Elem>) returns (k: nat)
    requires heap != []
    ensures Least(heap, k)
  {
    ghost var j := LeastExists(heap);
    assert forall i :: 0 <= i < |heap| ==> heap[i] in heap;
    k :| 0 <= k < |heap| && forall i :: 0 <= i < |heap| ==> !Less(heap[i].node.name, heap[k].node.name);
  }

  // ---------------------------------------------------------------- termination

  ghost function Height(nodes: seq<Node>): nat
    decreases nodes, 0
  {
    if nodes == [] then 0
    else
      var a, b := NodeHeight(nodes[0]), Height(nodes[1..]);
      if a <= b then b else a
  }

  ghost function NodeHeight(n: Node): nat
    decreases n, 1
  {
    if n.subtree.Some? && n.subtree.value.TreeBlob? then 1 + Height(n.subtree.value.nodes) else 0
  }

  lemma {:induction false} SubtreeLower(nodes: seq<Node>, n: Node)
    requires n in nodes && n.subtree.Some? && n.subtree.value.TreeBlob?
    ensures Height(n.subtree.value.nodes) < Height(nodes)
    decreases |nodes|
  {
    if n != nodes[0] { SubtreeLower(nodes[1..], n); }
  }

  ghost function Undrawn(trees: seq<seq<Node>>, pos: seq<nat>): nat
    requires |pos| == |trees| && forall i :: 0 <= i < |trees| ==> pos[i] <= |trees[i]|
    decreases |trees|
  {
    if trees == [] then 0 else |trees[0]| - pos[0] + Undrawn(trees[1..], pos[1..])
  }

  lemma {:induction false} DrawOne(trees: seq<seq<Node>>, pos: seq<nat>, num: nat)
    requires |pos| == |trees| && forall i :: 0 <= i < |trees| ==> pos[i] <= |trees[i]|
    requires num < |trees| && pos[num] < |trees[num]|
    ensures Undrawn(trees, pos[num := pos[num] + 1]) == Undrawn(trees, pos) - 1
    decreases |trees|
  {
    var pos' := pos[num := pos[num] + 1];
    if num == 0 {
      assert pos'[1..] == pos[1..];
    } else {
      assert pos'[1..] == pos[1..][num - 1 := pos[1..][num - 1] + 1];
      DrawOne(trees[1..], pos[1..], num - 1);
    }
  }

  // ---------------------------------------------------------------- merging the nodes of one name

  /** The largest at k, and none as large behind it. */
  ghost predicate LastLargest(le: Cmp, nodes: seq<Node>, k: nat)
  {
    && k < |nodes| && (forall n :: n in nodes ==> le(n, nodes[k]))
    && forall j :: k < j < |nodes| ==> !le(nodes[k], nodes[j])
  }

  /** `max_by` picks the last of the largest. */
  method MaxBy(le: Cmp, nodes: seq<Node>) returns (w: Node, ghost k: nat)
    requires nodes != [] && TotalPreorder(le)
    ensures LastLargest(le, nodes, k) && w == nodes[k]
  {
    w, k := nodes[0], 0;
    for i := 1 to |nodes|
      invariant k < i && w == nodes[k] && forall j :: 0 <= j < i ==> le(nodes[j], w)
      invariant forall j :: k < j < i ==> !le(w, nodes[j])
    {
      if le(w, nodes[i]) { w, k := nodes[i], i; }
    }
  }

  // ---------------------------------------------------------------- loading and saving

  /** A failure that ends the merge: a tree that cannot be loaded, or one that cannot be saved. */
  datatype Failure = NoFailure | LoadFails(id: BlobId) | SaveFails

  /** A failure to load names a tree that cannot be read. */
  predicate Honest(readable: BlobId -> bool, f: Failure) { f.LoadFails? ==> !readable(f.id) }

  /** `Tree::from_backend` for each id, up to the first failure. */
  method LoadTrees(readable: BlobId -> bool, ids: seq<BlobId>) returns (f: Failure, trees: seq<seq<Node>>)
    ensures Honest(readable, f) && !f.SaveFails?
    ensures f.NoFailure? <==> forall id :: id in ids ==> readable(id)
    ensures f.NoFailure? ==> trees == NodesOf(ids)
  {
    trees := [];
    for i := 0 to |ids|
      invariant |trees| == i && forall j :: 0 <= j < i ==> readable(ids[j]) && trees[j] == NodesOf(ids)[j]
    {
      if !readable(ids[i]) { return LoadFails(ids[i]), []; }
      trees := trees + [if ids[i].TreeBlob? then ids[i].nodes else []];
    }
    f := NoFailure;
  }

  /** The function that saves a tree; it may fail. */
  method SaveTree(nodes: seq<Node>, saved: set<BlobId>) returns (f: Failure, saved': set<BlobId>)
    ensures f == NoFailure || f == SaveFails
    ensures saved' == if f.NoFailure? then saved + {TreeBlob(nodes)} else saved
  {
    var fails: bool := *;
    f, saved' := if fails then SaveFails else NoFailure, if fails then saved else saved + {TreeBlob(nodes)};
  }

  function NodesOf(ids: seq<BlobId>): (r: seq<seq<Node>>)
    ensures |r| == |ids| && forall i :: 0 <= i < |r| ==> r[i] == if ids[i].TreeBlob? then ids[i].nodes else []
  {
    seq(|ids|, i requires 0 <= i < |ids| => if ids[i].TreeBlob? then ids[i].nodes else [])
  }

  /** A node whose subtree, if it is a directory, is stored and lower than h. */
  ghost predicate Mergeable(n: Node, h: nat)
  {
    n.nodeType.Dir? ==>
      && n.subtree.Some? && n.subtree.value.TreeBlob?
      && Stored(n.subtree.value.nodes) && Height(n.subtree.value.nodes) < h
  }

  ghost predicate MergeableTree(id: BlobId, h: nat) { id.TreeBlob? && Stored(id.nodes) && Height(id.nodes) < h }

  method DirIds(nodes: seq<Node>, ghost h: nat) returns (ids: seq<BlobId>)
    requires forall n :: n in nodes ==> Mergeable(n, h)
    ensures forall id :: id in ids ==> MergeableTree(id, h)
    ensures SetOf(NodesOf(ids)) == Subtrees(NodeSet(nodes))
  {
    ids := [];
    for k := 0 to |nodes|
      invariant forall id :: id in ids ==> MergeableTree(id, h)
      invariant forall j :: 0 <= j < k && nodes[j].nodeType.Dir? ==>
                  nodes[j].subtree.Some? && nodes[j].subtree.value in ids
      invariant forall id :: id in ids ==> exists n :: n in nodes && n.nodeType.Dir? && n.subtree == Some(id)
    {
      assert nodes[k] in nodes;
      if nodes[k].nodeType.Dir? { ids := ids + [nodes[k].subtree.value]; }
    }
    DirIdsAll(nodes, ids, h);
  }

  lemma {:induction false} DirIdsAll(nodes: seq<Node>, ids: seq<BlobId>, h: nat)
    requires (forall n :: n in nodes ==> Mergeable(n, h)) && (forall id :: id in ids ==> MergeableTree(id, h))
    requires forall j :: 0 <= j < |nodes| && nodes[j].nodeType.Dir? ==>
               nodes[j].subtree.Some? && nodes[j].subtree.value in ids
    requires forall id :: id in ids ==> exists n :: n in nodes && n.nodeType.Dir? && n.subtree == Some(id)
    ensures SetOf(NodesOf(ids)) == Subtrees(NodeSet(nodes))
  {
    var a, b := SetOf(NodesOf(ids)), Subtrees(NodeSet(nodes));
    forall t | t in a ensures t in b {
      var i :| 0 <= i < |ids| && NodesOf(ids)[i] == t;
      assert ids[i] in ids;
      var n :| n in nodes && n.nodeType.Dir? && n.subtree == Some(ids[i]);
    }
    forall t | t in b ensures t in a {
      var n :| n in nodes && n.nodeType.Dir? && n.subtree.Some? && n.subtree.value.TreeBlob? &&
          n.subtree.value.nodes == t;
      var j :| 0 <= j < |nodes| && nodes[j] == n;
      var i :| 0 <= i < |ids| && ids[i] == n.subtree.value;
      assert NodesOf(ids)[i] == t;
    }
  }

  ghost predicate NodeSaved(saved: set<BlobId>, n: Node)
  {
    n.nodeType.Dir? && n.subtree.Some? && n.subtree.value.TreeBlob? ==> SavedAll(saved, n.subtree.value.nodes)
  }

  function CountFile(s: Summary, size: nat): Summary
  {
    s.(filesUnmodified := s.filesUnmodified + 1, totalFiles := s.totalFiles + 1, totalBytes := s.totalBytes + size)
  }

  function CountDir(s: Summary, size: nat, unmodified: bool): Summary
  {
    s.(dirsUnmodified := s.dirsUnmodified + (if unmodified then 1 else 0),
       dirsChanged := s.dirsChanged + (if unmodified then 0 else 1),
       totalDirs := s.totalDirs + 1, totalDirsize := s.totalDirsize + size)
  }

  method MergeNodes(le: Cmp, readable: BlobId -> bool, size: seq<Node> -> nat, nodes: seq<Node>, summary: Summary,
                    saved: set<BlobId>, ghost h: nat)
    returns (f: Failure, r: Node, summary': Summary, saved': set<BlobId>)
    requires TotalPreorder(le) && nodes != []
    requires forall n :: n in nodes ==> Mergeable(n, h) && n.name == nodes[0].name
    ensures Honest(readable, f) && saved <= saved'
    ensures f.NoFailure? ==> r.name == nodes[0].name && Wins(le, NodeSet(nodes), r)
    ensures f.NoFailure? ==> Grew(summary, summary', CountNode(size, NodeSet(nodes), r)) && NodeSaved(saved', r)
    decreases h, 1
  {
    var ids := DirIds(nodes, h);
    var w, k := MaxBy(le, nodes);
    ghost var all := NodeSet(nodes);
    assert Largest(le, all, w);
    f, r, summary', saved' := NoFailure, w, summary, saved;
    if w.nodeType.Dir? {
      var id;
      f, id, summary', saved' := MergeTrees(le, readable, size, ids, summary, saved, h);
      if !f.NoFailure? { return; }
      r := w.(subtree := Some(id));
      assert r == w.(subtree := r.subtree);
    } else {
      summary' := CountFile(summary, w.meta.size);
    }
  }

  // ---------------------------------------------------------------- merging trees

  method RefillHeap(trees: seq<seq<Node>>, pos: seq<nat>, heap: seq<Elem>, num: nat, ghost group: seq<Node>,
                    ghost bound: Name)
    returns (pos': seq<nat>, heap': seq<Elem>)
    requires Grouping(trees, pos, heap, num, group, bound) && AllAscending(trees)
    ensures Refilled(trees, pos', heap', group, bound)
    ensures Undrawn(trees, pos') + |heap'| == Undrawn(trees, pos) + |heap|
  {
    if pos[num] < |trees[num]| {
      Refill(trees, pos, heap, num, group, bound);
      DrawOne(trees, pos, num);
      pos', heap' := pos[num := pos[num] + 1], heap + [Elem(trees[num][pos[num]], num)];
    } else {
      NoRefill(trees, pos, heap, num, group, bound);
      pos', heap' := pos, heap;
    }
  }

  ghost predicate OutSaved(saved: set<BlobId>, out: seq<Node>) { forall r :: r in out ==> NodeSaved(saved, r) }

  lemma {:induction false} OutSavedMore(saved: set<BlobId>, more: set<BlobId>, out: seq<Node>)
    requires OutSaved(saved, out) && saved <= more
    ensures OutSaved(more, out)
  {
    forall r | r in out ensures NodeSaved(more, r) {
      if r.nodeType.Dir? && r.subtree.Some? && r.subtree.value.TreeBlob? {
        SavedMore(saved, more, r.subtree.value.nodes);
      }
    }
  }

  /** The accounts of the nodes put out so far. */
  ghost predicate Booked(size: seq<Node> -> nat, trees: seq<seq<Node>>, before: Summary, after: Summary,
                         saved: set<BlobId>, out: seq<Node>)
  {
    Grew(before, after, Count(size, SetOf(trees), out)) && OutSaved(saved, out)
  }

  lemma {:induction false} BookOne(size: seq<Node> -> nat, trees: seq<seq<Node>>, before: Summary, mid: Summary,
                                   after: Summary, saved: set<BlobId>, more: set<BlobId>, out: seq<Node>, r: Node)
    requires Booked(size, trees, before, mid, saved, out) && NodeSaved(more, r) && saved <= more
    requires Grew(mid, after, CountNode(size, Namesakes(SetOf(trees), r.name), r))
    ensures Booked(size, trees, before, after, more, out + [r])
  {
    assert (out + [r])[..|out|] == out;
    OutSavedMore(saved, more, out);
  }

  lemma {:induction false} GroupMergeable(trees: seq<seq<Node>>, group: seq<Node>, bound: Name, h: nat)
    requires forall t :: t in trees ==> Stored(t) && Height(t) < h
    requires forall n :: n in group ==> n.name == bound && exists i :: 0 <= i < |trees| && n in trees[i]
    ensures h > 0 || group == []
    ensures forall n :: n in group ==> Mergeable(n, h - 1)
  {
    forall n | n in group ensures h > 0 && Mergeable(n, h - 1) {
      var i :| 0 <= i < |trees| && n in trees[i];
      assert trees[i] in trees;
      if n.nodeType.Dir? { SubtreeLower(trees[i], n); }
    }
    if group != [] { assert group[0] in group; }
  }

  /** Merges a complete group and puts the winner out. */
  method MergeGroup(le: Cmp, readable: BlobId -> bool, size: seq<Node> -> nat, ghost trees: seq<seq<Node>>,
                    group: seq<Node>, out: seq<Node>, ghost first: Summary, summary: Summary, saved: set<BlobId>,
                    ghost h: nat)
    returns (f: Failure, out': seq<Node>, summary': Summary, saved': set<BlobId>)
    requires TotalPreorder(le) && group != [] && (forall t :: t in trees ==> Stored(t) && Height(t) < h)
    requires forall n :: n in group ==> n.name == group[0].name && exists i :: 0 <= i < |trees| && n in trees[i]
    requires Namesakes(SetOf(trees), group[0].name) == NodeSet(group)
    requires Done(le, trees, out, group[0].name) && Booked(size, trees, first, summary, saved, out)
    ensures Honest(readable, f) && saved <= saved'
    ensures f.NoFailure? ==>
      DoneUpTo(le, trees, out', group[0].name) && Booked(size, trees, first, summary', saved', out')
    decreases h, 0, 0
  {
    GroupMergeable(trees, group, group[0].name, h);
    var r;
    f, r, summary', saved' := MergeNodes(le, readable, size, group, summary, saved, h - 1);
    out' := out + [r];
    if f.NoFailure? {
      AddWinner(le, trees, out, group[0].name, r);
      BookOne(size, trees, first, summary, summary', saved, saved', out, r);
    }
  }

  lemma {:induction false} NothingToMerge(le: Cmp, trees: seq<seq<Node>>, heap: seq<Elem>)
    requires heap == [] && forall i: nat :: i < |trees| && trees[i] != [] ==> InHeap(heap, i)
    ensures IsMerge(le, SetOf(trees), [])
  {
    forall i: nat | i < |trees| ensures trees[i] == [] { assert !InHeap(heap, i); }
    forall t | t in SetOf(trees) ensures t == [] {
      var i :| 0 <= i < |trees| && trees[i] == t;
    }
  }

  lemma {:induction false} AboveBound(heap: seq<Elem>, k: nat, bound: Name)
    requires Least(heap, k) && Less(bound, heap[k].node.name)
    ensures forall e :: e in heap ==> Less(bound, e.node.name)
  {
    forall e | e in heap ensures Less(bound, e.node.name) {
      LessTotal(heap[k].node.name, e.node.name);
      if e.node.name != heap[k].node.name { LessTrans(bound, heap[k].node.name, e.node.name); }
    }
  }

  /** What the loop keeps: a group with its last node, and everything before it put out. */
  ghost predicate Merging(le: Cmp, size: seq<Node> -> nat, trees: seq<seq<Node>>, pos: seq<nat>, heap: seq<Elem>,
                          num: nat, nodes: seq<Node>, node: Node, out: seq<Node>, first: Summary, summary: Summary,
                          saved: set<BlobId>)
  {
    && Grouping(trees, pos, heap, num, nodes + [node], node.name)
    && Done(le, trees, out, node.name) && Booked(size, trees, first, summary, saved, out)
  }

  lemma {:induction false} MergingJoins(le: Cmp, size: seq<Node> -> nat, trees: seq<seq<Node>>, pos: seq<nat>,
                                        heap: seq<Elem>, k: nat, group: seq<Node>, bound: Name, out: seq<Node>,
                                        first: Summary, summary: Summary, saved: set<BlobId>)
    requires Refilled(trees, pos, heap, group, bound) && Least(heap, k) && heap[k].node.name == bound
    requires Done(le, trees, out, bound) && Booked(size, trees, first, summary, saved, out)
    ensures Merging(le, size, trees, pos, Without(heap, k), heap[k].num, group, heap[k].node, out, first, summary,
              saved)
  {
    PopJoins(trees, pos, heap, k, group, bound);
  }

  /** The heap goes on with another name: the group is merged. */
  method FinishGroup(le: Cmp, readable: BlobId -> bool, size: seq<Node> -> nat, ghost trees: seq<seq<Node>>,
                     ghost pos: seq<nat>, heap: seq<Elem>, k: nat, group: seq<Node>, bound: Name, out: seq<Node>,
                     ghost first: Summary, summary: Summary, saved: set<BlobId>, ghost h: nat)
    returns (f: Failure, out': seq<Node>, summary': Summary, saved': set<BlobId>)
    requires TotalPreorder(le) && AllAscending(trees) && (forall t :: t in trees ==> Stored(t) && Height(t) < h)
    requires Refilled(trees, pos, heap, group, bound) && group != [] && Least(heap, k) && heap[k].node.name != bound
    requires Done(le, trees, out, bound) && Booked(size, trees, first, summary, saved, out)
    ensures Honest(readable, f) && saved <= saved'
    ensures f.NoFailure? ==>
      Merging(le, size, trees, pos, Without(heap, k), heap[k].num, [], heap[k].node, out', first, summary', saved')
    decreases h, 0, 1
  {
    assert group[0] in group;
    PopStarts(trees, pos, heap, k, group, bound);
    AboveBound(heap, k, bound);
    GroupIsAll(trees, pos, heap, group, bound);
    f, out', summary', saved' := MergeGroup(le, readable, size, trees, group, out, first, summary, saved, h);
    if f.NoFailure? {
      NextBound(le, trees, pos, heap, k, group, bound, out');
      assert [] + [heap[k].node] == [heap[k].node];
    }
  }

  /** The heap is empty: the last group is merged. */
  method FinishLast(le: Cmp, readable: BlobId -> bool, size: seq<Node> -> nat, ghost trees: seq<seq<Node>>,
                    ghost pos: seq<nat>, group: seq<Node>, bound: Name, out: seq<Node>, ghost first: Summary,
                    summary: Summary, saved: set<BlobId>, ghost h: nat)
    returns (f: Failure, out': seq<Node>, summary': Summary, saved': set<BlobId>)
    requires TotalPreorder(le) && AllAscending(trees) && (forall t :: t in trees ==> Stored(t) && Height(t) < h)
    requires Refilled(trees, pos, [], group, bound) && group != []
    requires Done(le, trees, out, bound) && Booked(size, trees, first, summary, saved, out)
    ensures Honest(readable, f) && saved <= saved'
    ensures f.NoFailure? ==> IsMerge(le, SetOf(trees), out') && Booked(size, trees, first, summary', saved', out')
    decreases h, 0, 1
  {
    assert group[0] in group;
    GroupIsAll(trees, pos, [], group, bound);
    f, out', summary', saved' := MergeGroup(le, readable, size, trees, group, out, first, summary, saved, h);
    if f.NoFailure? { AllDone(le, trees, pos, group, bound, out'); }
  }

  /** The loop over the heap, from its first element on. */
  method MergeFrom(le: Cmp, readable: BlobId -> bool, size: seq<Node> -> nat, trees: seq<seq<Node>>, pos0: seq<nat>,
                   heap0: seq<Elem>, first: Elem, summary: Summary, saved: set<BlobId>, ghost h: nat)
    returns (f: Failure, out: seq<Node>, summary': Summary, saved': set<BlobId>)
    requires TotalPreorder(le) && AllAscending(trees) && (forall t :: t in trees ==> Stored(t) && Height(t) < h)
    requires Grouping(trees, pos0, heap0, first.num, [first.node], first.node.name)
    requires Done(le, trees, [], first.node.name)
    ensures Honest(readable, f) && saved <= saved'
    ensures f.NoFailure? ==> IsMerge(le, SetOf(trees), out) && Booked(size, trees, summary, summary', saved', out)
    decreases h, 0, 2
  {
    var pos, heap, node, num := pos0, heap0, first.node, first.num;
    var nodes: seq<Node> := [];
    f, out, summary', saved' := NoFailure, [], summary, saved;
    assert nodes + [node] == [node];
    while true
      invariant Merging(le, size, trees, pos, heap, num, nodes, node, out, summary, summary', saved') && saved <= saved'
      decreases Undrawn(trees, pos) + |heap|
    {
      pos, heap := RefillHeap(trees, pos, heap, num, nodes + [node], node.name);
      nodes := nodes + [node];
      if heap == [] {
        f, out, summary', saved' := FinishLast(le, readable, size, trees, pos, nodes, node.name, out, summary, summary',
                                               saved', h);
        return;
      }
      var k := PopLeast(heap);
      if node.name != heap[k].node.name {
        f, out, summary', saved' := FinishGroup(le, readable, size, trees, pos, heap, k, nodes, node.name, out, summary,
                                                summary', saved', h);
        if !f.NoFailure? { return; }
        nodes := [];
      } else {
        MergingJoins(le, size, trees, pos, heap, k, nodes, node.name, out, summary, summary', saved');
      }
      node, num, heap := heap[k].node, heap[k].num, Without(heap, k);
    }
  }

  /** Merging stored trees, whatever the heap does with equal names: without a failure the result is a merge of
      the trees, its id is the id of what was saved, everything below it was saved too, and the summary has
      grown by exactly the files and directories of the result. A failure is a tree that cannot be read or
      saved; the trees given could be read unless it names one of them. */
  method MergeTrees(le: Cmp, readable: BlobId -> bool, size: seq<Node> -> nat, ids: seq<BlobId>, summary: Summary,
                    saved: set<BlobId>, ghost h: nat)
    returns (f: Failure, id: BlobId, summary': Summary, saved': set<BlobId>)
    requires TotalPreorder(le) && forall i :: i in ids ==> MergeableTree(i, h)
    ensures Honest(readable, f) && saved <= saved'
    ensures f.NoFailure? ==> (forall i :: i in ids ==> readable(i)) && id.TreeBlob?
    ensures f.NoFailure? ==> IsMerge(le, SetOf(NodesOf(ids)), id.nodes)
    ensures f.NoFailure? ==>
      Grew(summary, summary', CountTree(size, SetOf(NodesOf(ids)), id.nodes)) && SavedAll(saved', id.nodes)
    decreases h, 0, 3
  {
    var trees;
    f, trees := LoadTrees(readable, ids);
    id, summary', saved' := TreeBlob([]), summary, saved;
    if !f.NoFailure? { return; }
    forall t | t in trees ensures Stored(t) && Height(t) < h {
      var i :| 0 <= i < |trees| && trees[i] == t;
      assert ids[i] in ids;
    }
    var pos, heap := FillHeap(trees);
    if heap == [] {
      NothingToMerge(le, trees, heap);
      f, saved' := SaveTree([], saved);
      summary' := CountDir(summary, size([]), true);
      return;
    }
    var k := PopLeast(heap);
    FirstsSeen(trees, pos, heap, k);
    FirstsDone(le, trees, pos, heap, k);
    var out;
    f, out, summary', saved' := MergeFrom(le, readable, size, trees, pos, Without(heap, k), heap[k], summary, saved, h);
    if !f.NoFailure? { return; }
    id := TreeBlob(out);
    SaveLast(saved', out);
    OneOfThem(le, ids, heap[k].node, heap[k].num, out);
    f, saved' := SaveTree(out, saved');
    summary' := CountDir(summary', size(out), id in ids);
  }

  /** A merge of trees that are not all empty is not empty, and is unmodified if and only if its id is among theirs. */
  lemma {:induction false} OneOfThem(le: Cmp, ids: seq<BlobId>, n: Node, i: nat, out: seq<Node>)
    requires IsMerge(le, SetOf(NodesOf(ids)), out) && i < |ids| && n in NodesOf(ids)[i]
    requires forall id :: id in ids ==> id.TreeBlob?
    ensures out != [] && (TreeBlob(out) in ids <==> out in SetOf(NodesOf(ids)))
  {
    assert NodesOf(ids)[i] in SetOf(NodesOf(ids));
    assert HasName(out, n.name);
    if out in SetOf(NodesOf(ids)) {
      var j :| 0 <= j < |ids| && NodesOf(ids)[j] == out;
      assert ids[j] in ids;
    }
    if TreeBlob(out) in ids {
      var j :| 0 <= j < |ids| && ids[j] == TreeBlob(out);
      assert NodesOf(ids)[j] == out;
    }
  }

  lemma {:induction false} SaveLast(saved: set<BlobId>, out: seq<Node>)
    requires OutSaved(saved, out)
    ensures SavedAll(saved + {TreeBlob(out)}, out)
  {
    var more := saved + {TreeBlob(out)};
    OutSavedMore(saved, more, out);
    forall n | n in out && n.nodeType.Dir? && n.subtree.Some? && n.subtree.value.TreeBlob?
      ensures TreeBlob(n.subtree.value.nodes) in more && SavedBelow(more, n.subtree.value.nodes)
    {
      assert NodeSaved(more, n);
    }
  }

  ghost function Bound(ids: seq<BlobId>): nat
  {
    if ids == [] then 0
    else
      var a, b := if ids[0].TreeBlob? then Height(ids[0].nodes) + 1 else 0, Bound(ids[1..]);
      if a <= b then b else a
  }

  lemma {:induction false} BoundHolds(ids: seq<BlobId>)
    requires forall id :: id in ids ==> id.TreeBlob? && Stored(id.nodes)
    ensures forall id :: id in ids ==> MergeableTree(id, Bound(ids))
    decreases |ids|
  {
    if ids != [] {
      assert ids == [ids[0]] + ids[1..] && ids[0] in ids;
      BoundHolds(ids[1..]);
      forall id | id in ids ensures MergeableTree(id, Bound(ids)) {
        if id != ids[0] { assert MergeableTree(id, Bound(ids[1..])); }
      }
    }
  }

  /** The merge of snapshots: of any list of stored trees, of any height. */
  method MergeSnapshots(le: Cmp, readable: BlobId -> bool, size: seq<Node> -> nat, ids: seq<BlobId>)
    returns (f: Failure, id: BlobId, summary: Summary, saved: set<BlobId>)
    requires TotalPreorder(le) && forall i :: i in ids ==> i.TreeBlob? && Stored(i.nodes)
    ensures Honest(readable, f) && (f.NoFailure? ==> forall i :: i in ids ==> readable(i))
    ensures f.NoFailure? ==> id.TreeBlob? && IsMerge(le, SetOf(NodesOf(ids)), id.nodes) && SavedAll(saved, id.nodes)
    ensures f.NoFailure? ==> Grew(Summary(0, 0, 0, 0, 0, 0, 0), summary, CountTree(size, SetOf(NodesOf(ids)), id.nodes))
  {
    BoundHolds(ids);
    f, id, summary, saved := MergeTrees(le, readable, size, ids, Summary(0, 0, 0, 0, 0, 0, 0), {}, Bound(ids));
  }

  // ---------------------------------------------------------------- what follows for the result

  /** A merge of stored trees can be stored: it is sorted at every level. */
  lemma {:induction false} MergeIsStored(le: Cmp, trees: set<seq<Node>>, result: seq<Node>)
    requires IsMerge(le, trees, result) && forall t :: t in trees ==> Stored(t)
    ensures Stored(result)
    decreases result
  {
    forall r | r in result && r.nodeType.Dir?
      ensures r.subtree.Some? && r.subtree.value.TreeBlob? && Stored(r.subtree.value.nodes) {
      var all := Namesakes(trees, r.name);
      var w :| Largest(le, all, w) &&
        if w.nodeType.Dir? then
          && r.subtree.Some? && r.subtree.value.TreeBlob? && r == w.(subtree := r.subtree)
          && IsMerge(le, Subtrees(all), r.subtree.value.nodes)
        else r == w;
      forall t | t in Subtrees(all) ensures Stored(t) { SubtreeStored(trees, r.name, t); }
      MergeIsStored(le, Subtrees(all), r.subtree.value.nodes);
    }
  }

  lemma {:induction false} SubtreeStored(trees: set<seq<Node>>, name: Name, t: seq<Node>)
    requires (forall x :: x in trees ==> Stored(x)) && t in Subtrees(Namesakes(trees, name))
    ensures Stored(t)
  {
    var n :| n in Namesakes(trees, name) && n.nodeType.Dir? && n.subtree.Some? && n.subtree.value.TreeBlob? &&
        n.subtree.value.nodes == t;
    var x :| x in trees && n in x;
  }

  lemma {:induction false} SomeMember(b: seq<Node>)
    ensures b == [] || exists n :: n in b
  {
    if b != [] { assert b[0] in b; }
  }

  /** Ascending lists with the same members are the same. */
  lemma {:induction false} AscendingUnique(a: seq<Node>, b: seq<Node>)
    requires Ascending(a) && Ascending(b) && forall n :: n in a <==> n in b
    ensures a == b
    decreases |a|
  {
    if a == [] {
      SomeMember(b);
    } else {
      assert a[0] in b && b != [] && b[0] in a;
      var j :| 0 <= j < |b| && b[j] == a[0];
      var i :| 0 <= i < |a| && a[i] == b[0];
      LessTotal(a[0].name, b[0].name);
      assert a[0] == b[0];
      TailMembers(a);
      TailMembers(b);
      AscendingUnique(a[1..], b[1..]);
    }
  }

  lemma {:induction false} TailMembers(a: seq<Node>)
    requires a != [] && Ascending(a)
    ensures Ascending(a[1..]) && forall n :: n in a[1..] <==> n in a && n != a[0]
  {
    LessIrreflexive(a[0].name);
    assert a == [a[0]] + a[1..];
    forall n | n in a[1..] ensures n != a[0] {
      var k :| 0 <= k < |a[1..]| && a[1..][k] == n;
      assert Less(a[0].name, a[k + 1].name);
    }
  }

  lemma {:induction false} OnlyNamesake(t: seq<Node>, n: Node)
    requires Ascending(t) && n in t
    ensures Namesakes({t}, n.name) == {n}
  {
    forall m | m in t && m.name == n.name ensures m == n {
      var i :| 0 <= i < |t| && t[i] == n;
      var j :| 0 <= j < |t| && t[j] == m;
      LessIrreflexive(n.name);
      assert i == j;
    }
    assert n in Namesakes({t}, n.name);
  }

  /** Merging a tree with itself, however often, changes nothing. */
  lemma {:induction false} MergeOfOne(le: Cmp, t: seq<Node>, result: seq<Node>)
    requires IsMerge(le, {t}, result) && Stored(t)
    ensures result == t
    decreases result
  {
    forall r | r in result ensures r in t { WinnerOfOne(le, t, result, r); }
    forall n | n in t ensures n in result {
      assert t in {t};
      var r :| r in result && r.name == n.name;
      assert r in t;
      OnlyNamesake(t, n);
      assert r in Namesakes({t}, n.name);
    }
    AscendingUnique(result, t);
  }

  lemma {:induction false} WinnerOfOne(le: Cmp, t: seq<Node>, result: seq<Node>, r: Node)
    requires IsMerge(le, {t}, result) && Stored(t) && r in result
    ensures r in t
    decreases result, 0
  {
    var all := Namesakes({t}, r.name);
    var w :| Largest(le, all, w) &&
      if w.nodeType.Dir? then
        && r.subtree.Some? && r.subtree.value.TreeBlob? && r == w.(subtree := r.subtree)
        && IsMerge(le, Subtrees(all), r.subtree.value.nodes)
      else r == w;
    assert w in t && w.name == r.name;
    OnlyNamesake(t, w);
    if w.nodeType.Dir? {
      var sub := w.subtree.value.nodes;
      assert Subtrees({w}) == {sub};
      MergeOfOne(le, sub, r.subtree.value.nodes);
    }
  }
}
