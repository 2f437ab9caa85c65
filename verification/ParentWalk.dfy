/** The lookups of a whole backup: the events of a walk ask for names in the order the cursors need. */
module ParentWalk {
  import opened Repo
  import opened NameOrder
  import opened TreeBuild
  import PreOrder
  import ListWalk
  import WalkTree
  import opened Parent

  function LastName(nodes: seq<Node>): Option<Name>
  {
    if nodes == [] then None else Some(nodes[|nodes| - 1].name)
  }

  /** The last names asked for, read off the unfinished trees of the archiver. */
  function AskedFor(a: Archiver): (r: Asked)
    ensures |r.outer| == |a.stack|
  {
    Asked(LastName(a.nodes), seq(|a.stack|, i requires 0 <= i < |a.stack| => Some(a.stack[i].node.name)))
  }

  ghost predicate LevelSorted(o: Open<()>)
  {
    WalkTree.Sorted(o.outer) && Ascending(o.outer + [o.node])
  }

  /** All unfinished trees are in order, the open directory included. */
  ghost predicate AllSorted(a: Archiver)
  {
    WalkTree.Sorted(a.nodes) && forall o :: o in a.stack ==> LevelSorted(o)
  }

  predicate OpensDirs(es: seq<Event>) { forall e :: e in es && e.NewTree? ==> e.node.nodeType.Dir? }

  lemma {:induction false} NextInTurn(nodes: seq<Node>, n: Node)
    requires Ascending(nodes + [n])
    ensures NotBefore(n.name, LastName(nodes)) && Ascending(nodes)
  {
    var all := nodes + [n];
    forall i, j | 0 <= i < j < |nodes| ensures Less(nodes[i].name, nodes[j].name) {
      assert all[i] == nodes[i] && all[j] == nodes[j];
    }
    if nodes != [] {
      assert all[|nodes| - 1] == nodes[|nodes| - 1] && all[|nodes|] == n;
      LessTotal(nodes[|nodes| - 1].name, n.name);
    }
  }

  lemma {:induction false} SortedInit(nodes: seq<Node>, n: Node)
    requires WalkTree.Sorted(nodes + [n])
    ensures WalkTree.Sorted(nodes)
    ensures n.subtree.Some? && n.subtree.value.TreeBlob? ==> WalkTree.Sorted(n.subtree.value.nodes)
  {
    NextInTurn(nodes, n);
    assert n in nodes + [n] && forall m :: m in nodes ==> m in nodes + [n];
  }

  lemma {:induction false} SameNames(nodes: seq<Node>, n: Node, m: Node)
    requires Ascending(nodes + [n]) && n.name == m.name
    ensures Ascending(nodes + [m])
  {
    forall i, j | 0 <= i < j < |nodes + [m]| ensures Less((nodes + [m])[i].name, (nodes + [m])[j].name) {
      assert Less((nodes + [n])[i].name, (nodes + [n])[j].name);
    }
  }

  /** If the trees are sorted after an event they were before it, and the event came in turn. */
  lemma {:induction false} SortedBefore(a: Archiver, e: Event)
    requires Add(a, e).Some? && AllSorted(Add(a, e).value) && (e.NewTree? ==> e.node.nodeType.Dir?)
    ensures AllSorted(a) && InTurn(AskedFor(a), e)
    ensures Ask(AskedFor(a), e) == AskedFor(Add(a, e).value)
  {
    var b := Add(a, e).value;
    match e
    case NewTree(_, node) =>
      var o := Open(node, (), a.nodes);
      assert o in b.stack && LevelSorted(o);
      NextInTurn(a.nodes, node);
      assert forall x :: x in a.stack ==> x in b.stack;
    case Other(_, node) =>
      SortedInit(a.nodes, node);
      NextInTurn(a.nodes, node);
    case EndTree =>
      var top := a.stack[|a.stack| - 1];
      var n := top.node.(subtree := Some(TreeBlob(a.nodes)));
      SortedInit(top.outer, n);
      SameNames(top.outer, n, top.node);
      assert LevelSorted(top);
      assert a.stack == b.stack + [top];
  }

  lemma {:induction false} SortedMeansOrdered(a: Archiver, es: seq<Event>)
    requires AddAll(a, es).Some? && AllSorted(AddAll(a, es).value) && OpensDirs(es)
    ensures AllSorted(a) && Ordered(AskedFor(a), es) && WithinDepth(es, |a.stack|)
    decreases |es|
  {
    if es != [] {
      SortedMeansOrdered(Add(a, es[0]).value, es[1..]);
      SortedBefore(a, es[0]);
    }
  }

  lemma {:induction false} EventsOpenDirs(it: Iter)
    requires Chained(Lead(it.path), it.items)
    ensures OpensDirs(Events(it))
    decreases Rank(it).0, Rank(it).1, Rank(it).2
  {
    if Next(it).0.Some? {
      NextKeepsChain(it);
      NextProgress(it);
      EventsOpenDirs(Next(it).1);
    }
  }

  lemma {:induction false} WrapSorted(root: Path, i: nat, nodes: seq<Node>)
    requires i <= |root| && WalkTree.Sorted(nodes)
    ensures WalkTree.Sorted(PreOrder.Wrap(root, i, nodes))
    decreases |root| - i
  {
    if i < |root| { WrapSorted(root, i + 1, nodes); }
  }

  ghost predicate AnswersAgree(env: Env, parents: seq<seq<Node>>, es: seq<Event>)
  {
    var answers := Trace(env, State(Start(parents), []), es);
    answers == PlainTrace(env, Plain(parents, []), es) && Panics !in answers && StackEmpty !in answers
  }

  lemma {:induction false} AgreeFromStart(env: Env, parents: seq<seq<Node>>, es: seq<Event>)
    requires GoodEnv(env) && (forall t :: t in parents ==> GoodTree(t))
    requires Ordered(Asked(None, []), es) && WithinDepth(es, 0)
    ensures AnswersAgree(env, parents, es)
  {
    CursorsAgree(env, State(Start(parents), []), Plain(parents, []), Asked(None, []), es);
    StackEmptyIff(env, State(Start(parents), []), es);
  }

  lemma {:induction false} OrderedFromStart(entries: seq<Entry>, nodes: seq<Node>)
    requires Chained(Lead([]), entries) && WalkTree.Sorted(nodes)
    requires AddAll(Archiver([], []), Events(Iter([], entries))) == Some(Archiver(nodes, []))
    ensures Ordered(Asked(None, []), Events(Iter([], entries))) && WithinDepth(Events(Iter([], entries)), 0)
  {
    EventsOpenDirs(Iter([], entries));
    SortedMeansOrdered(Archiver([], []), Events(Iter([], entries)));
    assert AskedFor(Archiver([], [])) == Asked(None, []);
  }

  lemma {:induction false} LoadsGood(env: Env, ids: seq<BlobId>)
    requires GoodEnv(env)
    ensures forall t :: t in Load(env, ids) ==> GoodTree(t)
    decreases |ids|
  {
    if ids != [] { LoadsGood(env, ids[1..]); }
  }

  /** In a backup of any source from one root, against any parent snapshots: the moving cursors answer
      every lookup as a full search by name in every parent tree does; nothing panics and the stack
      of parent trees never runs empty. */
  lemma {:induction false} BackupFindsParents(be: ListWalk.Backend, root: Path, env: Env, ids: seq<BlobId>)
    requires WalkTree.GoodSource(be) && GoodEnv(env)
    ensures var entries := WalkTree.Entries(ListWalk.WalkRoots(be, [root], {root}).items);
      && Chained(Lead([]), entries)
      && AnswersAgree(env, Load(env, ids), Events(Iter([], entries)))
  {
    var entries := WalkTree.Entries(ListWalk.WalkRoots(be, [root], {root}).items);
    WalkTree.BackupStoresSource(be, root);
    WrapSorted(root, 0, WalkTree.SourceTree(be, root, 0));
    OrderedFromStart(entries, PreOrder.Archived(root, WalkTree.SourceTree(be, root, 0)));
    LoadsGood(env, ids);
    AgreeFromStart(env, Load(env, ids), Events(Iter([], entries)));
  }
}
