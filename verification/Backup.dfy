/** A whole backup: a run of the pipeline over the walk of a source publishes the tree of the source, with the
    contents that the run gave to its files. */
module Backup {
  import opened Repo
  import opened TreeBuild
  import PreOrder
  import ListWalk
  import WalkTree
  import Publish
  import opened History

  /** The tree without the contents of files. */
  function Emptied(nodes: seq<Node>): (r: seq<Node>)
    ensures |r| == |nodes|
    decreases nodes, 0
  {
    if nodes == [] then [] else [EmptiedNode(nodes[0])] + Emptied(nodes[1..])
  }

  function EmptiedNode(n: Node): (r: Node)
    ensures r.name == n.name && r.nodeType == n.nodeType && r.meta == n.meta && r.content == None
    decreases n, 0
  {
    if n.subtree.Some? && n.subtree.value.TreeBlob? then
      n.(content := None, subtree := Some(TreeBlob(Emptied(n.subtree.value.nodes))))
    else n.(content := None)
  }

  lemma {:induction false} EmptiedMore(nodes: seq<Node>, n: Node)
    ensures Emptied(nodes + [n]) == Emptied(nodes) + [EmptiedNode(n)]
  {
    if nodes == [] {
      assert [] + [n] == [n] && [n][1..] == [];
    } else {
      assert (nodes + [n])[1..] == nodes[1..] + [n];
      EmptiedMore(nodes[1..], n);
      Assoc([EmptiedNode(nodes[0])], Emptied(nodes[1..]), [EmptiedNode(n)]);
    }
  }

  function EmptiedStack(stack: seq<Open<()>>): (r: seq<Open<()>>)
    ensures |r| == |stack|
  {
    seq(|stack|, i requires 0 <= i < |stack| =>
      Open(EmptiedNode(stack[i].node), (), Emptied(stack[i].outer)))
  }

  function EmptiedArchiver(a: Archiver): Archiver { Archiver(Emptied(a.nodes), EmptiedStack(a.stack)) }

  /** The event of the pipeline is the event of the walk: the same node, but for the content of a file. */
  ghost predicate SameEvent(e: Event, w: Event)
  {
    match w
    case EndTree => e.EndTree?
    case NewTree(_, node) => e.NewTree? && EmptiedNode(e.node) == EmptiedNode(node)
    case Other(_, node) => e.Other? && EmptiedNode(e.node) == EmptiedNode(node)
  }

  ghost predicate SameEvents(es: seq<Event>, ws: seq<Event>)
  {
    |es| == |ws| && forall i :: 0 <= i < |es| ==> SameEvent(es[i], ws[i])
  }

  lemma {:induction false} StackEnds(stack: seq<Open<()>>, o: Open<()>)
    ensures EmptiedStack(stack + [o]) == EmptiedStack(stack) + [Open(EmptiedNode(o.node), (), Emptied(o.outer))]
    ensures stack != [] ==> EmptiedStack(stack[..|stack| - 1]) == EmptiedStack(stack)[..|stack| - 1]
  {
  }

  /** Adding an event and leaving out contents commute. */
  lemma {:induction false} AddSame(a: Archiver, b: Archiver, e: Event, w: Event)
    requires SameEvent(e, w) && EmptiedArchiver(a) == EmptiedArchiver(b)
    ensures Add(a, e).Some? <==> Add(b, w).Some?
    ensures Add(a, e).Some? ==> EmptiedArchiver(Add(a, e).value) == EmptiedArchiver(Add(b, w).value)
  {
    match w
    case NewTree(_, node) =>
      StackEnds(a.stack, Open(e.node, (), a.nodes));
      StackEnds(b.stack, Open(node, (), b.nodes));
    case Other(_, node) =>
      EmptiedMore(a.nodes, e.node);
      EmptiedMore(b.nodes, node);
    case EndTree =>
      assert |EmptiedStack(a.stack)| == |EmptiedStack(b.stack)|;
      if a.stack != [] { CloseSame(a, b); }
  }

  lemma {:induction false} CloseSame(a: Archiver, b: Archiver)
    requires a.stack != [] && |a.stack| == |b.stack| && EmptiedArchiver(a) == EmptiedArchiver(b)
    ensures EmptiedArchiver(Add(a, EndTree).value) == EmptiedArchiver(Add(b, EndTree).value)
  {
    var o, q := a.stack[|a.stack| - 1], b.stack[|b.stack| - 1];
    assert EmptiedStack(a.stack)[|a.stack| - 1] == EmptiedStack(b.stack)[|a.stack| - 1];
    var n, m := o.node.(subtree := Some(TreeBlob(a.nodes))), q.node.(subtree := Some(TreeBlob(b.nodes)));
    assert EmptiedNode(o.node).name == EmptiedNode(q.node).name;
    assert EmptiedNode(n) == EmptiedNode(m);
    EmptiedMore(o.outer, n);
    EmptiedMore(q.outer, m);
    StackEnds(a.stack, o);
    StackEnds(b.stack, q);
  }

  lemma {:induction false} AddAllSame(a: Archiver, b: Archiver, es: seq<Event>, ws: seq<Event>)
    requires SameEvents(es, ws) && EmptiedArchiver(a) == EmptiedArchiver(b)
    ensures AddAll(a, es).Some? <==> AddAll(b, ws).Some?
    ensures AddAll(a, es).Some? ==> EmptiedArchiver(AddAll(a, es).value) == EmptiedArchiver(AddAll(b, ws).value)
    decreases |es|
  {
    if es != [] {
      AddSame(a, b, es[0], ws[0]);
      if Add(a, es[0]).Some? { AddAllSame(Add(a, es[0]).value, Add(b, ws[0]).value, es[1..], ws[1..]); }
    }
  }

  // ---------------------------------------------------------------- the walk gives no contents

  lemma {:induction false} EmptiedFirst(n: Node, nodes: seq<Node>)
    ensures Emptied([n] + nodes) == [EmptiedNode(n)] + Emptied(nodes)
  {
    assert ([n] + nodes)[1..] == nodes;
  }

  lemma {:induction false} SourceIsEmptied(be: ListWalk.Backend, dir: Path, depth: nat)
    requires depth <= ListWalk.MAX_DEPTH && WalkTree.GoodSource(be)
    ensures Emptied(WalkTree.SourceTree(be, dir, depth)) == WalkTree.SourceTree(be, dir, depth)
    decreases ListWalk.MAX_DEPTH - depth, 1, 0
  {
    if ListWalk.Children(be, dir).Some? {
      WalkTree.ChildrenPlain(be, dir);
      NodesAreEmptied(be, dir, depth, ListWalk.Children(be, dir).value);
    }
  }

  lemma {:induction false} NodesAreEmptied(be: ListWalk.Backend, dir: Path, depth: nat, cs: seq<Node>)
    requires depth <= ListWalk.MAX_DEPTH && WalkTree.GoodSource(be) && WalkTree.Plain(cs)
    ensures Emptied(WalkTree.SourceNodes(be, dir, depth, cs)) == WalkTree.SourceNodes(be, dir, depth, cs)
    decreases ListWalk.MAX_DEPTH - depth, 0, |cs|
  {
    if cs != [] {
      assert cs[0] in cs;
      NodesAreEmptied(be, dir, depth, cs[1..]);
      var all, rest := WalkTree.SourceNodes(be, dir, depth, cs), WalkTree.SourceNodes(be, dir, depth, cs[1..]);
      if all != rest {
        if cs[0].nodeType.Dir? && be.recursive { SourceIsEmptied(be, PreOrder.Child(dir, cs[0].name), depth + 1); }
        assert all == [all[0]] + rest && EmptiedNode(all[0]) == all[0];
        EmptiedFirst(all[0], rest);
      }
    }
  }

  lemma {:induction false} WrapIsEmptied(root: Path, i: nat, nodes: seq<Node>)
    requires i <= |root| && Emptied(nodes) == nodes
    ensures Emptied(PreOrder.Wrap(root, i, nodes)) == PreOrder.Wrap(root, i, nodes)
    decreases |root| - i
  {
    if i < |root| {
      WrapIsEmptied(root, i + 1, nodes);
      if root[i].Normal? {
        var n := Missing(root[i].name).(subtree := Some(TreeBlob(PreOrder.Wrap(root, i + 1, nodes))));
        assert [n] + [] == [n];
        EmptiedFirst(n, []);
      }
    }
  }

  /** The events of the walk over the source below `root`. */
  ghost function WalkEvents(be: ListWalk.Backend, root: Path): seq<Event>
    requires WalkTree.GoodSource(be)
  {
    WalkTree.BackupStoresSource(be, root);
    Events(Iter([], WalkTree.Entries(ListWalk.WalkRoots(be, [root], {root}).items)))
  }

  /** From one root: whatever the interleaving, if the tree archiver has taken in the events of the walk, then a
      saved snapshot is the tree of the source but for the contents of its files, and these are the contents
      that the workers gave them. */
  lemma {:induction false} BackupPublishesSource(be: ListWalk.Backend, root: Path, trace: seq<Publish.State>,
                                                 acts: seq<Publish.Action>, n: nat, id: BlobId)
    requires WalkTree.GoodSource(be) && BackupRun(trace, acts) && n < |trace| && id in trace[n].snapshots
    requires SameEvents(EventsUpTo(trace, acts, n), WalkEvents(be, root))
    ensures id.TreeBlob?
    ensures Emptied(id.nodes) == PreOrder.Archived(root, WalkTree.SourceTree(be, root, 0))
    ensures multiset(Added(EventsUpTo(trace, acts, n))) == multiset(AllHanded(acts, n))
  {
    PublishedIsTree(trace, acts, n, id);
    WalkTree.BackupStoresSource(be, root);
    AddAllSame(EMPTY, EMPTY, EventsUpTo(trace, acts, n), WalkEvents(be, root));
    SourceIsEmptied(be, root, 0);
    WrapIsEmptied(root, 0, WalkTree.SourceTree(be, root, 0));
  }
}
